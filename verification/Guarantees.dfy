/** What holds in every state that any interleaving of service calls can reach. */
module Guarantees {
  import opened Basics
  import opened Counting
  import opened HazardModel
  import opened DispatchModel
  import opened EvacuationModel
  import opened Schema
  import opened Capabilities
  import opened Operations
  import opened Services
  import opened Evolution
  import opened Guards
  import opened Interleaving
  import DispatchInvariant
  import EvacuationInvariant
  import IncidentTrail
  import DispatchRepository
  import EvacuationRepository
  import IncidentRepository
  import Refinement

  type Regions = map<Id, bool>

  function Reached(regions: Regions, turns: seq<Turn>): Database {
    Run(regions, turns).db
  }

  // ---- dispatch ------------------------------------------------------------------------------

  /** A unit is deployed exactly when it has one active deployment and available exactly when it has
      none; its version is 1 + its deployments + its terminal deployments. */
  lemma UnitsAndDeploymentsAgree(regions: Regions, turns: seq<Turn>, u: Id)
    requires u in Reached(regions, turns).units
    ensures var db := Reached(regions, turns);
            var active := Count(db.deployments, ActiveOnUnit(u));
            && active <= 1
            && (db.units[u].status.Deployed? <==> active == 1)
            && (db.units[u].status.Available? <==> active == 0)
            && db.units[u].version == 1 + Count(db.deployments, OnUnit(u)) + Count(db.deployments, TerminalOnUnit(u))
  {
    RunInvariant(regions, turns);
    var db := Reached(regions, turns);
    assert DispatchInvariant.UnitAgrees(db.deployments, u, db.units[u]);
  }

  /** A request's status tells how many of its deployments are active. */
  lemma RequestStatusTellsActiveCount(regions: Regions, turns: seq<Turn>, r: Id)
    requires r in Reached(regions, turns).requests
    ensures var db := Reached(regions, turns);
            var request, active, all := db.requests[r], Count(db.deployments, ActiveForRequest(r)), Count(db.deployments, ForRequest(r));
            && (request.status.Requested? || request.status.Approved? ==> all == 0)
            && (request.status.PartiallyAllocated? ==> 1 <= active < request.quantity)
            && (request.status.Allocated? ==> 1 <= active <= request.quantity)
            && (request.status.Fulfilled? ==> all >= 1 && active == 0)
            && !request.status.RequestCancelled?
            && request.version == 1 + Bit(!request.status.Requested?) + all + Bit(request.status.Fulfilled?)
  {
    RunInvariant(regions, turns);
    var db := Reached(regions, turns);
    assert DispatchInvariant.RequestAgrees(db.deployments, r, db.requests[r]);
  }

  /** A deployment's version is 1 + its lifecycle rank, between 2 and 4 once cancelled, so it takes at
      most four committed moves; its timestamps tell how far it went. */
  lemma DeploymentVersionIsRank(regions: Regions, turns: seq<Turn>, d: Id)
    requires d in Reached(regions, turns).deployments
    ensures var row := Reached(regions, turns).deployments[d];
            && (if row.status.DeploymentCancelled? then 2 <= row.version <= 4 else row.version == 1 + row.status.Rank())
            && (row.acknowledgedAt.Some? <==> if row.status.DeploymentCancelled? then row.version >= 3 else row.status.Rank() >= 1)
            && (row.arrivedAt.Some? <==> row.status.OnScene? || row.status.Released?)
            && (row.releasedAt.Some? <==> row.status.Terminal())
  {
    RunInvariant(regions, turns);
    var db := Reached(regions, turns);
    assert DispatchInvariant.DeploymentSound(db, db.deployments[d]);
  }

  /** One turn moves a request's status along an edge of its table or not at all. */
  lemma RequestStatusFollowsTable(regions: Regions, turns: seq<Turn>, turn: Turn, r: Id)
    requires r in Reached(regions, turns).requests
    ensures r in Reached(regions, turns + [turn]).requests
    ensures var before, after := Reached(regions, turns).requests[r].status, Reached(regions, turns + [turn]).requests[r].status;
            before == after || before.CanTransition(after)
  {
    assert (turns + [turn])[..|turns|] == turns;
    var sys := Run(regions, turns);
    RunInvariant(regions, turns);
    if turn.Finish? && turn.ticket in sys.inflight && Commit(sys.db, sys.inflight[turn.ticket].op).Success? {
      var f := sys.inflight[turn.ticket];
      CommitFollowsRequestTable(sys.db, f.op);
    }
  }

  lemma OtherOperationsLeaveRequests(db: Database, op: Operation)
    requires Commit(db, op).Success? && !op.ApproveRequest? && !op.AllocateUnit? && !op.MoveDeployment?
    ensures forall r :: r in db.requests ==> r in Commit(db, op).value.requests && Commit(db, op).value.requests[r] == db.requests[r]
  {
  }

  lemma CommitFollowsRequestTable(db: Database, op: Operation)
    requires DispatchInvariant.RequestsAgree(db) && Commit(db, op).Success?
    ensures DispatchInvariant.RequestsFollowEdges(db, Commit(db, op).value)
  {
    match op
    case AllocateUnit(r, rv, u, uv, d, now, e) => DispatchInvariant.AllocateUnitFollowsEdges(db, r, rv, u, uv, d, e.actorId, now, e);
    case MoveDeployment(d, v, target, now, e) => DispatchInvariant.TransitionDeploymentFollowsEdges(db, d, v, target, now, e);
    case ApproveRequest(_, _, _, _) =>
    case _ => OtherOperationsLeaveRequests(db, op);
  }

  ghost predicate NoDeadDispatchBranch(db: Database, op: Operation) {
    && (op.MoveDeployment? ==> Commit(db, op) != Failure(UnitStateConflict))
    && (op.AllocateUnit? && Commit(db, op) == Failure(UnitHasActiveDeployment) ==> op.deploymentId in db.deployments)
  }

  lemma DispatchHasNoDeadBranch(db: Database, op: Operation)
    requires DispatchInvariant.Invariant(db)
    ensures NoDeadDispatchBranch(db, op)
  {
    match op
    case MoveDeployment(d, v, target, now, e) => DispatchInvariant.TransitionDeploymentNeverFindsUnitFree(db, d, v, target, now, e);
    case AllocateUnit(r, rv, u, uv, d, now, e) =>
      if Commit(db, op) == Failure(UnitHasActiveDeployment) {
        DispatchInvariant.AllocateUnitIndexNeverFires(db, r, rv, u, uv, d, e.actorId, now, e);
      }
    case _ =>
  }

  /** The branches that report a double allocation or a unit in the wrong state never fire: an
      allocation's insert is refused only for a generated id that is taken. */
  lemma DispatchBranchesAreDead(regions: Regions, turns: seq<Turn>, ticket: nat)
    requires ticket in Run(regions, turns).inflight
    ensures NoDeadDispatchBranch(Reached(regions, turns), Run(regions, turns).inflight[ticket].op)
  {
    RunInvariant(regions, turns);
    DispatchHasNoDeadBranch(Reached(regions, turns), Run(regions, turns).inflight[ticket].op);
  }

  /** The source status in a deployment's event is the committed one if and only if the call had
      read the version it presents; the service does not compare them. */
  lemma DeploymentEventSource(regions: Regions, turns: seq<Turn>, ticket: nat)
    requires ticket in Run(regions, turns).inflight && Run(regions, turns).inflight[ticket].op.MoveDeployment?
    requires Commit(Run(regions, turns).db, Run(regions, turns).inflight[ticket].op).Success?
    ensures var sys := Run(regions, turns);
            var f := sys.inflight[ticket];
            && f.op.deploymentId in f.seen.deployments && f.op.deploymentId in sys.db.deployments
            && (f.op.event.detail == DeploymentMove(sys.db.deployments[f.op.deploymentId].status, f.op.deploymentTarget)
                <==> f.seen.deployments[f.op.deploymentId].version == f.op.version)
  {
    RunInvariant(regions, turns);
    var sys := Run(regions, turns);
    var f := sys.inflight[ticket];
    assert Ready(sys.db, f);
    Refinement.MovedEventSource(f.seen, sys.db, f.call, f.op);
  }

  // ---- evacuation ----------------------------------------------------------------------------

  /** Each shelter's counter equals the people of its active and consumed reservations and stays
      within its capacity; its version is 1 + its reservations + its released ones. */
  lemma ShelterConservation(regions: Regions, turns: seq<Turn>, s: Id)
    requires s in Reached(regions, turns).shelters
    ensures var db := Reached(regions, turns);
            && db.shelters[s].reserved == Sum(db.reservations, Held(s))
            && 0 <= db.shelters[s].reserved <= db.shelters[s].capacity
            && db.shelters[s].version == 1 + Count(db.reservations, InShelter(s)) + Count(db.reservations, ReleasedInShelter(s))
  {
    RunInvariant(regions, turns);
    var db := Reached(regions, turns);
    assert EvacuationInvariant.ShelterAgrees(db.reservations, s, db.shelters[s]);
  }

  /** Plans and reservations are coupled: at most one per plan, for its people and its shelter, in
      the state the plan's status calls for; its version is 1 + rank, between 2 and 5 once cancelled, and
      it is dated completed exactly when it is. */
  lemma PlansAndReservationsAgree(regions: Regions, turns: seq<Turn>, p: Id)
    requires p in Reached(regions, turns).plans
    ensures var db := Reached(regions, turns);
            var plan := db.plans[p];
            && (plan.status.Draft? || plan.status.Submitted? ==> p !in db.reservations)
            && (plan.status.PlanApproved? || plan.status.Executing? ==> p in db.reservations && db.reservations[p].status.ReservationActive?)
            && (plan.status.Completed? ==> p in db.reservations && db.reservations[p].status.ReservationConsumed?)
            && (plan.status.PlanCancelled? && p in db.reservations ==> db.reservations[p].status.ReservationReleased?)
            && (p in db.reservations ==> db.reservations[p].people == plan.evacuees && db.reservations[p].shelterId == plan.shelterId)
            && (if plan.status.PlanCancelled? then 2 <= plan.version <= 5 else plan.version == 1 + plan.status.Rank())
            && (plan.completedAt.Some? <==> plan.status.Completed?)
  {
    RunInvariant(regions, turns);
    var db := Reached(regions, turns);
    assert EvacuationInvariant.PlanAgrees(db.reservations, db.shelters, p, db.plans[p]);
  }

  /** No reservation without its plan. */
  lemma ReservationsBelongToPlans(regions: Regions, turns: seq<Turn>, p: Id)
    requires p in Reached(regions, turns).reservations
    ensures p in Reached(regions, turns).plans
  {
    RunInvariant(regions, turns);
  }

  /** Completed steps form a prefix of the step order; no step of a plan that was never started is
      complete; a completed plan has every step complete. */
  lemma StepsCompleteInOrder(regions: Regions, turns: seq<Turn>, a: Id, b: Id)
    requires a in Reached(regions, turns).steps && b in Reached(regions, turns).steps
    requires Reached(regions, turns).steps[a].planId == Reached(regions, turns).steps[b].planId
    ensures var db := Reached(regions, turns);
            && db.steps[a].planId in db.plans
            && (db.steps[a].order < db.steps[b].order && db.steps[b].completedAt.Some? ==> db.steps[a].completedAt.Some?)
            && (db.steps[a].completedAt.Some? ==> db.plans[db.steps[a].planId].status.Started())
            && (db.plans[db.steps[a].planId].status.Completed? ==> db.steps[a].completedAt.Some?)
  {
    RunInvariant(regions, turns);
    var db := Reached(regions, turns);
    assert EvacuationInvariant.StepSound(db.steps, db.plans, a);
    assert EvacuationInvariant.PrefixComplete(db.steps, a, b);
  }

  ghost predicate NoDeadEvacuationBranch(db: Database, op: Operation) {
    && (op.CancelPlan? ==> Commit(db, op) != Failure(ReservationInvariant))
    && (op.CompletePlan? ==> Commit(db, op) != Failure(ReservationMissing))
    && (op.ApprovePlan? && Commit(db, op) == Failure(ConstraintFailed) ==>
          EvacuationRepository.ReservationIdTaken(db.reservations, op.reservationId) || EventIdTaken(db.audit, op.event.id))
  }

  lemma ConsistentHasNoDeadBranch(db: Database, op: Operation)
    requires EvacuationInvariant.Invariant(db)
    ensures NoDeadEvacuationBranch(db, op)
  {
    match op
    case CancelPlan(p, v, reason, now, e) => EvacuationInvariant.CancelPlanAlwaysReleases(db, p, v, reason, now, e);
    case CompletePlan(p, v, now, e) => EvacuationInvariant.CompletePlanFindsReservation(db, p, v, now, e);
    case ApprovePlan(p, v, r, now, e) =>
      if Commit(db, op) == Failure(ConstraintFailed) {
        EvacuationInvariant.ApprovePlanNeverDoubleBooks(db, p, v, r, e.actorId, now, e);
      }
    case _ =>
  }

  /** The branches that report a broken capacity counter or a missing reservation never fire, and a
      plan never gets a second reservation. */
  lemma EvacuationBranchesAreDead(regions: Regions, turns: seq<Turn>, ticket: nat)
    requires ticket in Run(regions, turns).inflight
    ensures NoDeadEvacuationBranch(Reached(regions, turns), Run(regions, turns).inflight[ticket].op)
  {
    RunInvariant(regions, turns);
    ConsistentHasNoDeadBranch(Reached(regions, turns), Run(regions, turns).inflight[ticket].op);
  }

  // ---- incidents -----------------------------------------------------------------------------

  /** An incident's transition events in the log form a connected path of legal edges from active to
      its current status, its version is 1 + their number, and it is dated closed exactly when closed. */
  lemma IncidentTrailReplays(regions: Regions, turns: seq<Turn>, i: Id)
    requires i in Reached(regions, turns).incidents
    ensures var db := Reached(regions, turns);
            var moves := IncidentTrail.Moves(db.audit, i);
            && IncidentTrail.Path(moves, IncidentStatus.Active, db.incidents[i].status)
            && db.incidents[i].version == 1 + |moves|
            && (db.incidents[i].closedAt.Some? <==> db.incidents[i].status.Closed?)
  {
    RunInvariant(regions, turns);
    var db := Reached(regions, turns);
    assert IncidentTrail.IncidentAgrees(db.audit, i, db.incidents[i]);
  }

  // ---- for ever ------------------------------------------------------------------------------

  /** Rows in a final state never change again: fulfilled requests, ended deployments, completed and
      cancelled plans, completed steps. */
  lemma FinalRowsStay(regions: Regions, turns: seq<Turn>, n: nat, id: Id)
    requires n <= |turns|
    ensures var past, now := Reached(regions, turns[..n]), Reached(regions, turns);
            && (id in past.requests && past.requests[id].status.Fulfilled? ==> id in now.requests && now.requests[id] == past.requests[id])
            && (id in past.deployments && past.deployments[id].status.Terminal() ==>
                  id in now.deployments && now.deployments[id] == past.deployments[id])
            && (id in past.plans && (past.plans[id].status.Completed? || past.plans[id].status.PlanCancelled?) ==>
                  id in now.plans && now.plans[id] == past.plans[id])
            && (id in past.steps && past.steps[id].completedAt.Some? ==> id in now.steps && now.steps[id] == past.steps[id])
  {
    RunEvolves(regions, turns, n);
    var past, now := Reached(regions, turns[..n]), Reached(regions, turns);
    assert RowEvolves(past, now, RequestRef(id)) && RowEvolves(past, now, DeploymentRef(id));
    assert RowEvolves(past, now, PlanRef(id)) && RowEvolves(past, now, StepRef(id));
  }

  // ---- the log of committed calls ------------------------------------------------------------

  /** Unit u was registered by a committed call whose capability list normalises to caps. */
  ghost predicate Registers(f: InFlight, u: Id, caps: seq<string>) {
    && f.op.InsertUnit? && f.op.unitId == u && f.call.command.RegisterUnit?
    && Normalize(f.call.command.capabilities) == Success(caps)
  }

  ghost predicate Registered(log: seq<InFlight>, u: Id, caps: seq<string>) {
    exists f :: f in log && Registers(f, u, caps)
  }

  /** Request r was created by a committed call asking for a capability that normalises to c. */
  ghost predicate Asks(f: InFlight, r: Id, c: string) {
    && f.op.InsertRequest? && f.op.requestId == r && f.call.command.CreateRequest?
    && Normal(f.call.command.capability) == c
  }

  ghost predicate Asked(log: seq<InFlight>, r: Id, c: string) {
    exists f :: f in log && Asks(f, r, c)
  }

  ghost predicate Rooted(db: Database, log: seq<InFlight>) {
    && (forall u {:trigger Registered(log, u, db.units[u].capabilities)} :: u in db.units ==> Registered(log, u, db.units[u].capabilities))
    && (forall r {:trigger Asked(log, r, db.requests[r].capability)} :: r in db.requests ==> Asked(log, r, db.requests[r].capability))
  }

  lemma InsertUnitComesFromItsCall(seen: Database, call: Call, op: Operation)
    requires Read(seen, call) == Success(op) && op.InsertUnit?
    ensures call.command.RegisterUnit? && Normalize(call.command.capabilities) == Success(op.unit.capabilities)
  {
  }

  lemma InsertRequestComesFromItsCall(seen: Database, call: Call, op: Operation)
    requires Read(seen, call) == Success(op) && op.InsertRequest?
    ensures call.command.CreateRequest? && op.request.capability == Normal(call.command.capability)
  {
  }

  predicate OnDispatchTables(op: Operation) {
    op.InsertUnit? || op.InsertRequest? || op.ApproveRequest? || op.AllocateUnit? || op.MoveDeployment?
  }

  lemma OtherOperationsLeaveDispatch(db: Database, op: Operation)
    requires Commit(db, op).Success? && !OnDispatchTables(op)
    ensures Commit(db, op).value.units == db.units && Commit(db, op).value.requests == db.requests
  {
  }

  predicate SameIds(a: Database, b: Database) {
    a.units.Keys == b.units.Keys && a.requests.Keys == b.requests.Keys
  }

  lemma ApproveKeepsIds(db: Database, op: Operation)
    requires Commit(db, op).Success? && op.ApproveRequest?
    ensures SameIds(db, Commit(db, op).value)
  {
  }

  lemma AllocateKeepsIds(db: Database, op: Operation)
    requires Commit(db, op).Success? && op.AllocateUnit?
    ensures SameIds(db, Commit(db, op).value)
  {
  }

  lemma AfterMoveKeepsIds(db: Database, id: Id, target: DeploymentStatus, now: Time)
    requires id in db.deployments && (target.Terminal() ==> db.deployments[id].unitId in db.units)
    ensures SameIds(db, DispatchRepository.AfterMove(db, id, target, now))
  {
  }

  lemma MoveKeepsIds(db: Database, op: Operation)
    requires Commit(db, op).Success? && op.MoveDeployment?
    ensures SameIds(db, Commit(db, op).value)
  {
    AfterMoveKeepsIds(db, op.deploymentId, op.deploymentTarget, op.now);
  }

  lemma OthersKeepIds(db: Database, op: Operation)
    requires Commit(db, op).Success? && !op.InsertUnit? && !op.InsertRequest?
    ensures SameIds(db, Commit(db, op).value)
  {
    if op.ApproveRequest? {
      ApproveKeepsIds(db, op);
    } else if op.AllocateUnit? {
      AllocateKeepsIds(db, op);
    } else if op.MoveDeployment? {
      MoveKeepsIds(db, op);
    } else {
      OtherOperationsLeaveDispatch(db, op);
    }
  }

  lemma UnitInserted(db: Database, op: Operation)
    requires Commit(db, op).Success? && op.InsertUnit?
    ensures Commit(db, op).value == db.(units := db.units[op.unitId := op.unit])
  {
  }

  lemma RequestInserted(db: Database, op: Operation)
    requires Commit(db, op).Success? && op.InsertRequest?
    ensures Commit(db, op).value.requests == db.requests[op.requestId := op.request] && Commit(db, op).value.units == db.units
  {
  }

  /** Only an insert adds a unit. */
  lemma NewUnitsAreInserted(db: Database, op: Operation, after: Database, u: Id)
    requires Commit(db, op) == Success(after) && u in after.units && u !in db.units
    ensures op.InsertUnit? && op.unitId == u && after.units[u] == op.unit
  {
    if op.InsertUnit? {
      UnitInserted(db, op);
    } else if op.InsertRequest? {
      RequestInserted(db, op);
    } else {
      OthersKeepIds(db, op);
    }
  }

  /** Only an insert adds a request. */
  lemma NewRequestsAreInserted(db: Database, op: Operation, after: Database, r: Id)
    requires Commit(db, op) == Success(after) && r in after.requests && r !in db.requests
    ensures op.InsertRequest? && op.requestId == r && after.requests[r] == op.request
  {
    if op.InsertRequest? {
      RequestInserted(db, op);
    } else if op.InsertUnit? {
      UnitInserted(db, op);
    } else {
      OthersKeepIds(db, op);
    }
  }

  lemma LogExtends(log: seq<InFlight>, f: InFlight)
    ensures forall u, caps :: Registered(log, u, caps) ==> Registered(log + [f], u, caps)
    ensures forall r, c :: Asked(log, r, c) ==> Asked(log + [f], r, c)
    ensures forall u, caps :: Registers(f, u, caps) ==> Registered(log + [f], u, caps)
    ensures forall r, c :: Asks(f, r, c) ==> Asked(log + [f], r, c)
  {
    assert f in log + [f] && forall g :: g in log ==> g in log + [f];
  }

  lemma CommitRooted(db: Database, log: seq<InFlight>, f: InFlight)
    requires Rooted(db, log) && Read(f.seen, f.call) == Success(f.op) && Commit(db, f.op).Success?
    ensures Rooted(Commit(db, f.op).value, log + [f])
  {
    var after := Commit(db, f.op).value;
    CommitLogged(db, f.op);
    LogExtends(log, f);
    forall u | u in after.units
      ensures Registered(log + [f], u, after.units[u].capabilities)
    {
      if u in db.units {
        assert RowEvolves(db, after, UnitRef(u)) && Registered(log, u, db.units[u].capabilities);
      } else {
        NewUnitsAreInserted(db, f.op, after, u);
        InsertUnitComesFromItsCall(f.seen, f.call, f.op);
        assert Registers(f, u, after.units[u].capabilities);
      }
    }
    forall r | r in after.requests
      ensures Asked(log + [f], r, after.requests[r].capability)
    {
      if r in db.requests {
        assert RowEvolves(db, after, RequestRef(r)) && Asked(log, r, db.requests[r].capability);
      } else {
        NewRequestsAreInserted(db, f.op, after, r);
        InsertRequestComesFromItsCall(f.seen, f.call, f.op);
        assert Asks(f, r, after.requests[r].capability);
      }
    }
  }

  lemma {:induction false} RunRooted(regions: Regions, turns: seq<Turn>)
    ensures Rooted(Run(regions, turns).db, Run(regions, turns).log)
  {
    if turns != [] {
      var sys, turn := Run(regions, turns[..|turns| - 1]), turns[|turns| - 1];
      RunRooted(regions, turns[..|turns| - 1]);
      RunInvariant(regions, turns[..|turns| - 1]);
      if turn.Finish? && turn.ticket in sys.inflight && Commit(sys.db, sys.inflight[turn.ticket].op).Success? {
        assert Ready(sys.db, sys.inflight[turn.ticket]);
        CommitRooted(sys.db, sys.log, sys.inflight[turn.ticket]);
      }
    }
  }

  /** Every deployment is a qualified match for ever: its unit has the incident's region and the
      requested type, and some capability the unit was registered with equals the one asked for after
      trimming and lower-casing, although all this was checked before the transaction. */
  lemma DeploymentsAreQualified(regions: Regions, turns: seq<Turn>, d: Id)
    requires d in Reached(regions, turns).deployments
    ensures var sys := Run(regions, turns);
            var row := sys.db.deployments[d];
            && row.unitId in sys.db.units && row.requestId in sys.db.requests && row.incidentId in sys.db.incidents
            && sys.db.requests[row.requestId].incidentId == row.incidentId
            && sys.db.units[row.unitId].regionId == sys.db.incidents[row.incidentId].regionId
            && sys.db.units[row.unitId].kind == sys.db.requests[row.requestId].kind
            && exists f, g :: f in sys.log && g in sys.log && CapabilityMet(f, g, row.unitId, row.requestId)
  {
    RunInvariant(regions, turns);
    RunRooted(regions, turns);
    var sys := Run(regions, turns);
    var row := sys.db.deployments[d];
    assert DispatchInvariant.DeploymentSound(sys.db, row);
    var unit, request := sys.db.units[row.unitId], sys.db.requests[row.requestId];
    assert Registered(sys.log, row.unitId, unit.capabilities) && Asked(sys.log, row.requestId, request.capability);
    var f :| f in sys.log && Registers(f, row.unitId, unit.capabilities);
    var g :| g in sys.log && Asks(g, row.requestId, request.capability);
    NormalizedMembership(f.call.command.capabilities);
    assert CapabilityMet(f, g, row.unitId, row.requestId);
  }

  /** Call f registered the unit with a capability that call g asked for, up to case and blanks. */
  ghost predicate CapabilityMet(f: InFlight, g: InFlight, u: Id, r: Id) {
    && f.op.InsertUnit? && f.op.unitId == u && f.call.command.RegisterUnit?
    && g.op.InsertRequest? && g.op.requestId == r && g.call.command.CreateRequest?
    && exists i :: 0 <= i < |f.call.command.capabilities|
                   && Normal(f.call.command.capabilities[i]) == Normal(g.call.command.capability)
  }

  /** The database the n-th committed call left. */
  function After(db: Database, log: seq<InFlight>): Result<Database> {
    if log == [] then Success(db)
    else
      var before :- After(db, log[..|log| - 1]);
      Commit(before, log[|log| - 1].op)
  }

  /** The event of each committed audited call, in commit order; a cancellation's event tells the
      status its plan had when it committed. */
  function EventsOf(db: Database, log: seq<InFlight>): seq<Event> {
    if log == [] then []
    else
      var n := |log| - 1;
      EventsOf(db, log[..n])
      + if Audited(log[n].op) && After(db, log[..n]).Success? then [LoggedEvent(After(db, log[..n]).value, log[n].op)] else []
  }

  lemma LogAppend(db: Database, log: seq<InFlight>, f: InFlight)
    requires After(db, log).Success?
    ensures After(db, log + [f]) == Commit(After(db, log).value, f.op)
    ensures EventsOf(db, log + [f]) == EventsOf(db, log) + if Audited(f.op) then [LoggedEvent(After(db, log).value, f.op)] else []
  {
    assert (log + [f])[..|log|] == log;
  }

  /** The audit log is exactly the events of the committed audited calls, in commit order. */
  lemma {:induction false} AuditRecordsCommits(regions: Regions, turns: seq<Turn>)
    ensures var sys := Run(regions, turns);
            After(Empty(regions), sys.log) == Success(sys.db) && sys.db.audit == EventsOf(Empty(regions), sys.log)
  {
    if turns != [] {
      var sys, turn := Run(regions, turns[..|turns| - 1]), turns[|turns| - 1];
      AuditRecordsCommits(regions, turns[..|turns| - 1]);
      TurnEffect(sys, turn);
      if Commits(sys, turn) {
        LogAppend(Empty(regions), sys.log, sys.inflight[turn.ticket]);
        CommitLogged(sys.db, sys.inflight[turn.ticket].op);
      }
    }
  }

  // ---- the outbox ----------------------------------------------------------------------------

  /** How many outbox rows announce an incident. */
  function Announcements(outbox: seq<OutboxRow>, i: Id): nat {
    if outbox == [] then 0 else Announcements(outbox[..|outbox| - 1], i) + Bit(outbox[|outbox| - 1].aggregateId == i)
  }

  /** Each incident is announced once, and nothing else is. */
  ghost predicate Announced(db: Database) {
    forall i {:trigger Announcements(db.outbox, i)} :: Announcements(db.outbox, i) == Bit(i in db.incidents)
  }

  lemma OtherOperationsLeaveOutbox(db: Database, op: Operation)
    requires Commit(db, op).Success? && !op.InsertIncident?
    ensures Commit(db, op).value.outbox == db.outbox && Commit(db, op).value.incidents.Keys == db.incidents.Keys
  {
    if op.MoveIncident? {
      assert Commit(db, op) == IncidentRepository.TransitionIncident(db, op.incidentId, op.version, op.incidentTarget, op.summary, op.closedAt, op.event);
    }
  }

  lemma ActivationAnnounces(db: Database, op: Operation)
    requires Commit(db, op).Success? && op.InsertIncident?
    ensures op.incidentId !in db.incidents && Commit(db, op).value.incidents.Keys == db.incidents.Keys + {op.incidentId}
    ensures Commit(db, op).value.outbox == db.outbox + [OutboxRow(op.outboxId, op.incidentId, op.event.at)]
  {
  }

  lemma CommitAnnounced(db: Database, op: Operation, after: Database)
    requires Announced(db) && Commit(db, op) == Success(after)
    ensures Announced(after)
  {
    if op.InsertIncident? {
      ActivationAnnounces(db, op);
      var row := OutboxRow(op.outboxId, op.incidentId, op.event.at);
      assert (db.outbox + [row])[..|db.outbox|] == db.outbox;
      forall i
        ensures Announcements(after.outbox, i) == Bit(i in after.incidents)
      {
        assert Announcements(db.outbox, i) == Bit(i in db.incidents);
        assert i in after.incidents.Keys <==> i in db.incidents.Keys || i == op.incidentId;
      }
    } else {
      OtherOperationsLeaveOutbox(db, op);
      forall i
        ensures Announcements(after.outbox, i) == Bit(i in after.incidents)
      {
        assert Announcements(db.outbox, i) == Bit(i in db.incidents);
        assert i in after.incidents.Keys <==> i in db.incidents.Keys;
      }
    }
  }

  lemma {:induction false} RunAnnounced(regions: Regions, turns: seq<Turn>)
    ensures Announced(Reached(regions, turns))
  {
    if turns != [] {
      var sys, turn := Run(regions, turns[..|turns| - 1]), turns[|turns| - 1];
      RunAnnounced(regions, turns[..|turns| - 1]);
      TurnEffect(sys, turn);
      if Commits(sys, turn) {
        CommitAnnounced(sys.db, sys.inflight[turn.ticket].op, Next(sys, turn).db);
      }
    }
  }

  /** Every incident has exactly one outbox row, and every outbox row an incident. */
  lemma IncidentsAreAnnouncedOnce(regions: Regions, turns: seq<Turn>, i: Id)
    ensures Announcements(Reached(regions, turns).outbox, i) == if i in Reached(regions, turns).incidents then 1 else 0
  {
    RunAnnounced(regions, turns);
  }
}
