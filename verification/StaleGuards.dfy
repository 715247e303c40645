/** The guards that are not checked again, at work: two calls read the same state, the second one
    commits first, and the first one still commits although its guard has become false. */
module StaleGuards {
  import opened Basics
  import opened Counting
  import opened HazardModel
  import opened DispatchModel
  import opened EvacuationModel
  import opened Schema
  import opened Operations
  import opened Services
  import opened Guards
  import opened Interleaving
  import opened LogIndependence
  import DispatchRepository
  import EvacuationRepository
  import IncidentRepository
  import Evolution
  import DispatchInvariant
  import EvacuationInvariant

  type Regions = map<Id, bool>

  /** The slow call reads first and commits last; the fast one does both in between. */
  function Overtaken(slow: Call, fast: Call): seq<Turn> {
    [Begin(0, slow), Begin(1, fast), Finish(1), Finish(0)]
  }

  /** The run has come to this database, with no call in flight. */
  ghost predicate Idle(regions: Regions, turns: seq<Turn>, db: Database) {
    Run(regions, turns).db == db && Run(regions, turns).inflight == map[]
  }

  /** Both calls are accepted on what they read, and both transactions succeed, the fast one first. */
  ghost predicate Overtakes(db: Database, slow: Call, fast: Call, mid: Database, after: Database) {
    && Read(db, slow).Success? && Read(db, fast).Success?
    && Commit(db, Read(db, fast).value) == Success(mid) && Commit(mid, Read(db, slow).value) == Success(after)
  }

  lemma CommitsOvertake(db: Database, slow: Call, fast: Call, slowOp: Operation, fastOp: Operation, mid: Database, after: Database)
    requires Read(db, slow) == Success(slowOp) && Read(db, fast) == Success(fastOp)
    requires Commit(db, fastOp) == Success(mid) && Commit(mid, slowOp) == Success(after)
    ensures Overtakes(db, slow, fast, mid, after)
  {
  }

  lemma BeginTurn(sys: System, ticket: nat, call: Call, op: Operation)
    requires ticket !in sys.inflight && Read(sys.db, call) == Success(op)
    ensures Next(sys, Begin(ticket, call)) == System(sys.db, sys.inflight[ticket := InFlight(call, op, sys.db)], sys.log, sys.reading)
  {
  }

  lemma FinishTurn(sys: System, ticket: nat, after: Database)
    requires ticket in sys.inflight && Commit(sys.db, sys.inflight[ticket].op) == Success(after)
    ensures Next(sys, Finish(ticket)) == System(after, Without(sys.inflight, ticket), sys.log + [sys.inflight[ticket]], sys.reading)
  {
  }

  lemma ExtendRun(regions: Regions, turns: seq<Turn>, sys: System, turn: Turn, next: System)
    requires Run(regions, turns) == sys && Next(sys, turn) == next
    ensures Run(regions, turns + [turn]) == next
  {
    assert (turns + [turn])[..|turns|] == turns;
  }

  lemma BeginBoth(regions: Regions, turns: seq<Turn>, sys: System, slow: InFlight, fast: InFlight)
    requires Run(regions, turns) == sys && sys.inflight == map[]
    requires Read(sys.db, slow.call) == Success(slow.op) && Read(sys.db, fast.call) == Success(fast.op)
    requires slow.seen == sys.db && fast.seen == sys.db
    ensures Run(regions, turns + [Begin(0, slow.call)] + [Begin(1, fast.call)]) == System(sys.db, map[0 := slow, 1 := fast], sys.log, sys.reading)
  {
    var one := System(sys.db, map[0 := slow], sys.log, sys.reading);
    BeginTurn(sys, 0, slow.call, slow.op);
    ExtendRun(regions, turns, sys, Begin(0, slow.call), one);
    BeginTurn(one, 1, fast.call, fast.op);
    ExtendRun(regions, turns + [Begin(0, slow.call)], one, Begin(1, fast.call), System(sys.db, map[0 := slow, 1 := fast], sys.log, sys.reading));
  }

  lemma FinishBoth(regions: Regions, turns: seq<Turn>, sys: System, slow: InFlight, fast: InFlight, mid: Database, after: Database)
    requires Run(regions, turns) == sys && sys.inflight == map[0 := slow, 1 := fast]
    requires Commit(sys.db, fast.op) == Success(mid) && Commit(mid, slow.op) == Success(after)
    ensures Idle(regions, turns + [Finish(1)] + [Finish(0)], after)
  {
    var one := System(mid, map[0 := slow], sys.log + [fast], sys.reading);
    var two := System(after, map[], one.log + [slow], sys.reading);
    assert Without(sys.inflight, 1) == map[0 := slow] && Without(one.inflight, 0) == map[];
    FinishTurn(sys, 1, mid);
    ExtendRun(regions, turns, sys, Finish(1), one);
    FinishTurn(one, 0, after);
    ExtendRun(regions, turns + [Finish(1)], one, Finish(0), two);
  }

  lemma OvertakenCommits(regions: Regions, turns: seq<Turn>, db: Database, slow: Call, fast: Call, mid: Database, after: Database)
    requires Idle(regions, turns, db) && Overtakes(db, slow, fast, mid, after)
    ensures Idle(regions, turns + Overtaken(slow, fast), after)
  {
    var sys := Run(regions, turns);
    var f, g := InFlight(slow, Read(db, slow).value, db), InFlight(fast, Read(db, fast).value, db);
    BeginBoth(regions, turns, sys, f, g);
    FinishBoth(regions, turns + [Begin(0, slow)] + [Begin(1, fast)], System(db, map[0 := f, 1 := g], sys.log, sys.reading), f, g, mid, after);
    OvertakenTurns(turns, slow, fast);
  }

  lemma OvertakenTurns(turns: seq<Turn>, slow: Call, fast: Call)
    ensures turns + [Begin(0, slow)] + [Begin(1, fast)] + [Finish(1)] + [Finish(0)] == turns + Overtaken(slow, fast)
  {
  }

  lemma FreshAfterAppend(audit: seq<Event>, e: Event, id: Id)
    requires !EventIdTaken(audit, id) && e.id != id
    ensures !EventIdTaken(audit + [e], id)
  {
  }

  /** The two calls brought event ids of their own. */
  predicate FreshEvents(db: Database, slow: Call, fast: Call) {
    !EventIdTaken(db.audit, slow.auditId) && !EventIdTaken(db.audit, fast.auditId) && slow.auditId != fast.auditId
  }

  // ---- a request for a cancelled incident ----------------------------------------------------

  lemma MoveIncidentSucceeds(db: Database, op: Operation) returns (after: Database)
    requires op.MoveIncident? && op.incidentId in db.incidents && db.incidents[op.incidentId].version == op.version
    requires !EventIdTaken(db.audit, op.event.id)
    ensures Commit(db, op) == Success(after) && OnlyIncidents(db, after) && after.audit == db.audit + [op.event]
    ensures op.incidentId in after.incidents && after.incidents[op.incidentId].status == op.incidentTarget
  {
    after := IncidentRepository.TransitionIncident(db, op.incidentId, op.version, op.incidentTarget, op.summary, op.closedAt, op.event).value;
  }

  lemma InsertRequestSucceeds(db: Database, op: Operation) returns (after: Database)
    requires op.InsertRequest? && op.requestId !in db.requests && 1 <= op.request.quantity && 1 <= op.request.priority <= 5
    requires !EventIdTaken(db.audit, op.event.id)
    ensures Commit(db, op) == Success(after) && after.incidents == db.incidents && after.requests == db.requests[op.requestId := op.request]
  {
    after := DispatchRepository.CreateRequest(db, op.requestId, op.request, op.event).value;
  }

  lemma TransitionOperation(db: Database, call: Call) returns (op: Operation)
    requires call.command.TransitionIncident? && ReadTransitionIncident(db, call).Success?
    ensures Read(db, call) == Success(op) && op.MoveIncident? && op.incidentId == call.command.incidentId
    ensures op.incidentId in db.incidents && db.incidents[op.incidentId].version == op.version
    ensures op.incidentTarget == call.command.incidentTarget && op.event.id == call.auditId
  {
    op := ReadTransitionIncident(db, call).value;
  }

  lemma CreateOperation(db: Database, call: Call) returns (op: Operation)
    requires call.command.CreateRequest? && ReadCreateRequest(db, call).Success?
    ensures Read(db, call) == Success(op) && op.InsertRequest? && op.requestId == call.command.newRequestId
    ensures op.request.incidentId == call.command.incidentId && op.event.id == call.auditId
    ensures 1 <= op.request.quantity && 1 <= op.request.priority <= 5
  {
    op := ReadCreateRequest(db, call).value;
  }

  lemma RequestOvertaken(db: Database, create: Call, cancel: Call) returns (mid: Database, after: Database)
    requires create.command.CreateRequest? && cancel.command.TransitionIncident?
    requires cancel.command.incidentId == create.command.incidentId && cancel.command.incidentTarget == IncidentStatus.Cancelled
    requires ReadCreateRequest(db, create).Success? && ReadTransitionIncident(db, cancel).Success?
    requires FreshEvents(db, create, cancel) && create.command.newRequestId !in db.requests
    ensures Overtakes(db, create, cancel, mid, after)
    ensures var r, i := create.command.newRequestId, create.command.incidentId;
            r in after.requests && after.requests[r].incidentId == i && i in after.incidents && after.incidents[i].status.Cancelled?
  {
    var createOp := CreateOperation(db, create);
    var cancelOp := TransitionOperation(db, cancel);
    mid := MoveIncidentSucceeds(db, cancelOp);
    FreshAfterAppend(db.audit, cancelOp.event, create.auditId);
    after := InsertRequestSucceeds(mid, createOp);
    CommitsOvertake(db, create, cancel, createOp, cancelOp, mid, after);
  }

  /** A request is created for an incident that was cancelled after the request's call read it. */
  lemma RequestOutlivesIncident(regions: Regions, turns: seq<Turn>, db: Database, create: Call, cancel: Call) returns (after: Database)
    requires Idle(regions, turns, db) && create.command.CreateRequest? && cancel.command.TransitionIncident?
    requires cancel.command.incidentId == create.command.incidentId && cancel.command.incidentTarget == IncidentStatus.Cancelled
    requires ReadCreateRequest(db, create).Success? && ReadTransitionIncident(db, cancel).Success?
    requires FreshEvents(db, create, cancel) && create.command.newRequestId !in db.requests
    ensures Idle(regions, turns + Overtaken(create, cancel), after)
    ensures var r, i := create.command.newRequestId, create.command.incidentId;
            r in after.requests && after.requests[r].incidentId == i && i in after.incidents && after.incidents[i].status.Cancelled?
  {
    var mid;
    mid, after := RequestOvertaken(db, create, cancel);
    OvertakenCommits(regions, turns, db, create, cancel, mid, after);
  }

  // ---- a step of a cancelled plan ------------------------------------------------------------

  lemma CancelAccepted(db: Database, p: Id, version: int, reason: string, now: Time, event: Event)
    requires EvacuationInvariant.Invariant(db) && p in db.plans && db.plans[p].version == version
    requires db.plans[p].status.CanTransition(PlanCancelled) && !EventIdTaken(db.audit, event.id)
    ensures EvacuationRepository.CancelPlan(db, p, version, reason, now, event).Success?
  {
    EvacuationInvariant.CancelPlanAlwaysReleases(db, p, version, reason, now, event);
  }

  lemma CancelledTables(db: Database, after: Database, p: Id, version: int, reason: string, now: Time, event: Event) returns (e: Event)
    requires EvacuationRepository.CancelPlan(db, p, version, reason, now, event) == Success(after)
    ensures e.id == event.id && after.audit == db.audit + [e]
    ensures p in after.plans && after.plans[p].status.PlanCancelled? && after.steps == db.steps
  {
    Evolution.CancelPlanSucceeds(db, p, version, reason, now, event);
    Evolution.AfterCancelTables(db, p, now);
    e := event.(detail := PlanCancellation(reason, db.plans[p].status));
  }

  lemma CancelSucceeds(db: Database, op: Operation) returns (after: Database, e: Event)
    requires EvacuationInvariant.Invariant(db) && op.CancelPlan? && op.planId in db.plans && db.plans[op.planId].version == op.version
    requires db.plans[op.planId].status.CanTransition(PlanCancelled) && !EventIdTaken(db.audit, op.event.id)
    ensures Commit(db, op) == Success(after) && e.id == op.event.id && after.audit == db.audit + [e]
    ensures op.planId in after.plans && after.plans[op.planId].status.PlanCancelled? && after.steps == db.steps
  {
    CancelAccepted(db, op.planId, op.version, op.reason, op.now, op.event);
    after := EvacuationRepository.CancelPlan(db, op.planId, op.version, op.reason, op.now, op.event).value;
    e := CancelledTables(db, after, op.planId, op.version, op.reason, op.now, op.event);
  }

  lemma StepOvertaken(db: Database, complete: Call, cancel: Call) returns (mid: Database, after: Database)
    requires EvacuationInvariant.Invariant(db)
    requires complete.command.CompleteStep? && cancel.command.Cancel? && cancel.command.planId == complete.command.planId
    requires ReadCompleteStep(db, complete).Success? && ReadCancel(db, cancel).Success? && FreshEvents(db, complete, cancel)
    requires EvacuationRepository.StepReady(db.steps, complete.command.planId, complete.command.stepId)
    requires db.plans[cancel.command.planId].version == cancel.command.version
    ensures Overtakes(db, complete, cancel, mid, after)
    ensures var s, p := complete.command.stepId, complete.command.planId;
            db.steps[s].completedAt.None? && s in after.steps && after.steps[s].completedAt.Some?
            && p in after.plans && after.plans[p].status.PlanCancelled?
  {
    var e;
    mid, e := CancelSucceeds(db, ReadCancel(db, cancel).value);
    FreshAfterAppend(db.audit, e, complete.auditId);
    after := Commit(mid, ReadCompleteStep(db, complete).value).value;
  }

  /** A step is completed in a plan that was cancelled after the step's call read it. */
  lemma StepOutlivesPlan(regions: Regions, turns: seq<Turn>, db: Database, complete: Call, cancel: Call) returns (after: Database)
    requires Idle(regions, turns, db)
    requires complete.command.CompleteStep? && cancel.command.Cancel? && cancel.command.planId == complete.command.planId
    requires ReadCompleteStep(db, complete).Success? && ReadCancel(db, cancel).Success? && FreshEvents(db, complete, cancel)
    requires EvacuationRepository.StepReady(db.steps, complete.command.planId, complete.command.stepId)
    requires db.plans[cancel.command.planId].version == cancel.command.version
    ensures Idle(regions, turns + Overtaken(complete, cancel), after)
    ensures var s, p := complete.command.stepId, complete.command.planId;
            db.steps[s].completedAt.None? && s in after.steps && after.steps[s].completedAt.Some?
            && p in after.plans && after.plans[p].status.PlanCancelled?
  {
    RunInvariant(regions, turns);
    var mid;
    mid, after := StepOvertaken(db, complete, cancel);
    OvertakenCommits(regions, turns, db, complete, cancel, mid, after);
  }

  // ---- a closed incident with an open plan ---------------------------------------------------

  lemma SubmitSucceeds(db: Database, op: Operation) returns (after: Database)
    requires op.SubmitPlan? && EvacuationRepository.Movable(db.plans, op.planId, op.version, Draft) && !EventIdTaken(db.audit, op.event.id)
    ensures Commit(db, op) == Success(after) && OnlyEvacuation(db, after) && after.audit == db.audit + [op.event]
    ensures op.planId in after.plans && after.plans[op.planId].status.Submitted?
    ensures after.plans[op.planId].incidentId == db.plans[op.planId].incidentId
  {
    after := EvacuationRepository.UpdatePlanState(db, op.planId, op.version, Draft, Submitted, op.now, op.event).value;
  }

  lemma SubmitOperation(db: Database, call: Call) returns (op: Operation)
    requires call.command.Submit? && ReadSubmit(db, call).Success? && db.plans[call.command.planId].version == call.command.version
    ensures Read(db, call) == Success(op) && op.SubmitPlan? && op.planId == call.command.planId && op.event.id == call.auditId
    ensures EvacuationRepository.Movable(db.plans, op.planId, op.version, Draft)
  {
    op := ReadSubmit(db, call).value;
  }

  lemma SubmittedPlanIsOpen(db: Database, i: Id, p: Id)
    requires p in db.plans && db.plans[p].status.Submitted? && db.plans[p].incidentId == i
    ensures IncidentRepository.HasOpenDependencies(db, i)
  {
    CountWitness(db.plans, IncidentRepository.OpenPlanOf(i), p);
  }

  lemma CloseAfterSubmit(db: Database, closeOp: Operation, submitOp: Operation) returns (mid: Database, after: Database)
    requires closeOp.MoveIncident? && closeOp.incidentId in db.incidents && db.incidents[closeOp.incidentId].version == closeOp.version
    requires submitOp.SubmitPlan? && EvacuationRepository.Movable(db.plans, submitOp.planId, submitOp.version, Draft)
    requires db.plans[submitOp.planId].incidentId == closeOp.incidentId && submitOp.event.id != closeOp.event.id
    requires !EventIdTaken(db.audit, submitOp.event.id) && !EventIdTaken(db.audit, closeOp.event.id)
    ensures Commit(db, submitOp) == Success(mid) && Commit(mid, closeOp) == Success(after)
    ensures closeOp.incidentId in after.incidents && after.incidents[closeOp.incidentId].status == closeOp.incidentTarget
    ensures IncidentRepository.HasOpenDependencies(after, closeOp.incidentId)
  {
    mid := SubmitSucceeds(db, submitOp);
    FreshAfterAppend(db.audit, submitOp.event, closeOp.event.id);
    after := MoveIncidentSucceeds(mid, closeOp);
    SubmittedPlanIsOpen(after, closeOp.incidentId, submitOp.planId);
  }

  lemma CloseOvertaken(db: Database, close: Call, submit: Call) returns (mid: Database, after: Database)
    requires close.command.TransitionIncident? && close.command.incidentTarget == IncidentStatus.Closed && submit.command.Submit?
    requires ReadTransitionIncident(db, close).Success? && ReadSubmit(db, submit).Success? && FreshEvents(db, close, submit)
    requires db.plans[submit.command.planId].version == submit.command.version
    requires db.plans[submit.command.planId].incidentId == close.command.incidentId
    ensures Overtakes(db, close, submit, mid, after)
    ensures var i := close.command.incidentId;
            i in after.incidents && after.incidents[i].status.Closed? && IncidentRepository.HasOpenDependencies(after, i)
  {
    var submitOp := SubmitOperation(db, submit);
    var closeOp := TransitionOperation(db, close);
    mid, after := CloseAfterSubmit(db, closeOp, submitOp);
    CommitsOvertake(db, close, submit, closeOp, submitOp, mid, after);
  }

  /** An incident is closed over a plan that was submitted after the closing call counted the open
      operations. */
  lemma IncidentClosesOverOpenPlan(regions: Regions, turns: seq<Turn>, db: Database, close: Call, submit: Call) returns (after: Database)
    requires Idle(regions, turns, db)
    requires close.command.TransitionIncident? && close.command.incidentTarget == IncidentStatus.Closed && submit.command.Submit?
    requires ReadTransitionIncident(db, close).Success? && ReadSubmit(db, submit).Success? && FreshEvents(db, close, submit)
    requires db.plans[submit.command.planId].version == submit.command.version
    requires db.plans[submit.command.planId].incidentId == close.command.incidentId
    ensures Idle(regions, turns + Overtaken(close, submit), after)
    ensures var i := close.command.incidentId;
            i in after.incidents && after.incidents[i].status.Closed? && IncidentRepository.HasOpenDependencies(after, i)
  {
    var mid;
    mid, after := CloseOvertaken(db, close, submit);
    OvertakenCommits(regions, turns, db, close, submit, mid, after);
  }

  // ---- an event with an older source ---------------------------------------------------------

  lemma CancelledAfterAcknowledged(db: Database, cancel: Call, acknowledge: Call) returns (mid: Database, after: Database)
    requires DispatchInvariant.Invariant(db)
    requires cancel.command.TransitionDeployment? && cancel.command.deploymentTarget == DeploymentCancelled
    requires acknowledge.command.TransitionDeployment? && acknowledge.command.deploymentTarget == Acknowledged
    requires cancel.command.deploymentId == acknowledge.command.deploymentId
    requires ReadTransitionDeployment(db, cancel).Success? && ReadTransitionDeployment(db, acknowledge).Success?
    requires FreshEvents(db, cancel, acknowledge)
    requires db.deployments[cancel.command.deploymentId].version == acknowledge.command.version
    requires cancel.command.version == acknowledge.command.version + 1
    ensures Overtakes(db, cancel, acknowledge, mid, after)
    ensures |after.audit| == |db.audit| + 2
    ensures after.audit[|db.audit|].detail == DeploymentMove(Assigned, Acknowledged)
    ensures after.audit[|db.audit| + 1].detail == DeploymentMove(Assigned, DeploymentCancelled)
    ensures after.audit[|db.audit|].subject == Row(cancel.command.deploymentId) == after.audit[|db.audit| + 1].subject
  {
    var cancelOp, acknowledgeOp := ReadTransitionDeployment(db, cancel).value, ReadTransitionDeployment(db, acknowledge).value;
    mid := Commit(db, acknowledgeOp).value;
    FreshAfterAppend(db.audit, acknowledgeOp.event, cancel.auditId);
    DispatchInvariant.ActiveDeploymentsUnitIsDeployed(db, cancel.command.deploymentId);
    after := Commit(mid, cancelOp).value;
  }

  /** A deployment's event names the status its call read, not the one it left: the deployment was
      acknowledged in between, and the call presented the version of that later row. */
  lemma EventNamesOlderSource(regions: Regions, turns: seq<Turn>, db: Database, cancel: Call, acknowledge: Call) returns (after: Database)
    requires Idle(regions, turns, db)
    requires cancel.command.TransitionDeployment? && cancel.command.deploymentTarget == DeploymentCancelled
    requires acknowledge.command.TransitionDeployment? && acknowledge.command.deploymentTarget == Acknowledged
    requires cancel.command.deploymentId == acknowledge.command.deploymentId
    requires ReadTransitionDeployment(db, cancel).Success? && ReadTransitionDeployment(db, acknowledge).Success?
    requires FreshEvents(db, cancel, acknowledge)
    requires db.deployments[cancel.command.deploymentId].version == acknowledge.command.version
    requires cancel.command.version == acknowledge.command.version + 1
    ensures Idle(regions, turns + Overtaken(cancel, acknowledge), after)
    ensures |after.audit| == |db.audit| + 2
    ensures after.audit[|db.audit|].detail == DeploymentMove(Assigned, Acknowledged)
    ensures after.audit[|db.audit| + 1].detail == DeploymentMove(Assigned, DeploymentCancelled)
    ensures after.audit[|db.audit|].subject == Row(cancel.command.deploymentId) == after.audit[|db.audit| + 1].subject
  {
    RunInvariant(regions, turns);
    var mid;
    mid, after := CancelledAfterAcknowledged(db, cancel, acknowledge);
    OvertakenCommits(regions, turns, db, cancel, acknowledge, mid, after);
  }

  // ---- a plan for a cancelled incident -------------------------------------------------------

  lemma CreatePlanOperation(db: Database, call: Call) returns (op: Operation)
    requires call.command.CreatePlan? && ReadCreatePlan(db, call).Success?
    ensures Read(db, call) == Success(op) && op.InsertPlan? && op.planId == call.command.newPlanId
    ensures op.plan.incidentId == call.command.incidentId && op.event.id == call.auditId
  {
    op := ReadCreatePlan(db, call).value;
  }

  lemma InsertPlanSucceeds(db: Database, op: Operation) returns (after: Database)
    requires op.InsertPlan? && PlanInsertable(db, op.planId, op.plan, op.steps, op.stepIds) && !EventIdTaken(db.audit, op.event.id)
    ensures Commit(db, op) == Success(after) && after.incidents == db.incidents
    ensures op.planId in after.plans && after.plans[op.planId].incidentId == op.plan.incidentId
  {
    CreatePlanShape(db, op.planId, op.plan, op.steps, op.stepIds, op.event);
    after := EvacuationRepository.CreatePlan(db, op.planId, op.plan, op.steps, op.stepIds, op.event).value;
  }

  lemma PlanOvertaken(db: Database, create: Call, cancel: Call, createOp: Operation) returns (mid: Database, after: Database)
    requires create.command.CreatePlan? && cancel.command.TransitionIncident?
    requires cancel.command.incidentId == create.command.incidentId && cancel.command.incidentTarget == IncidentStatus.Cancelled
    requires ReadCreatePlan(db, create) == Success(createOp) && ReadTransitionIncident(db, cancel).Success?
    requires FreshEvents(db, create, cancel)
    requires createOp.InsertPlan? && PlanInsertable(db, createOp.planId, createOp.plan, createOp.steps, createOp.stepIds)
    ensures Overtakes(db, create, cancel, mid, after)
    ensures var p, i := create.command.newPlanId, create.command.incidentId;
            p in after.plans && after.plans[p].incidentId == i && i in after.incidents && after.incidents[i].status.Cancelled?
  {
    var op := CreatePlanOperation(db, create);
    var cancelOp := TransitionOperation(db, cancel);
    mid := MoveIncidentSucceeds(db, cancelOp);
    FreshAfterAppend(db.audit, cancelOp.event, create.auditId);
    after := InsertPlanSucceeds(mid, op);
    CommitsOvertake(db, create, cancel, op, cancelOp, mid, after);
  }

  /** A plan is created for an incident that was cancelled after the plan's call read it. */
  lemma PlanOutlivesIncident(regions: Regions, turns: seq<Turn>, db: Database, create: Call, cancel: Call, createOp: Operation)
    returns (after: Database)
    requires Idle(regions, turns, db) && create.command.CreatePlan? && cancel.command.TransitionIncident?
    requires cancel.command.incidentId == create.command.incidentId && cancel.command.incidentTarget == IncidentStatus.Cancelled
    requires ReadCreatePlan(db, create) == Success(createOp) && ReadTransitionIncident(db, cancel).Success?
    requires FreshEvents(db, create, cancel)
    requires createOp.InsertPlan? && PlanInsertable(db, createOp.planId, createOp.plan, createOp.steps, createOp.stepIds)
    ensures Idle(regions, turns + Overtaken(create, cancel), after)
    ensures var p, i := create.command.newPlanId, create.command.incidentId;
            p in after.plans && after.plans[p].incidentId == i && i in after.incidents && after.incidents[i].status.Cancelled?
  {
    var mid;
    mid, after := PlanOvertaken(db, create, cancel, createOp);
    OvertakenCommits(regions, turns, db, create, cancel, mid, after);
  }

  // ---- calls that nothing overtakes ----------------------------------------------------------

  /** The turns of a call that reads and commits before anything else happens. */
  function Then(turns: seq<Turn>, call: Call): seq<Turn> {
    turns + [Begin(0, call)] + [Finish(0)]
  }

  lemma CallCommits(regions: Regions, turns: seq<Turn>, db: Database, call: Call, op: Operation, after: Database)
    requires Idle(regions, turns, db) && Read(db, call) == Success(op) && Commit(db, op) == Success(after)
    ensures Idle(regions, Then(turns, call), after)
  {
    var sys, f := Run(regions, turns), InFlight(call, op, db);
    var one, two := System(db, map[0 := f], sys.log, sys.reading), System(after, map[], sys.log + [f], sys.reading);
    BeginTurn(sys, 0, call, op);
    ExtendRun(regions, turns, sys, Begin(0, call), one);
    assert Without(one.inflight, 0) == map[];
    FinishTurn(one, 0, after);
    ExtendRun(regions, turns + [Begin(0, call)], one, Finish(0), two);
  }
}
