/** What is left, at the moment of its transaction, of the guards a call evaluated when it read. */
module Guards {
  import opened Basics
  import opened Counting
  import opened HazardModel
  import opened DispatchModel
  import opened EvacuationModel
  import opened Schema
  import opened Operations
  import opened Services
  import opened Evolution
  import DispatchRepository
  import EvacuationRepository
  import IncidentRepository
  import EvacuationInvariant

  /** The read-phase facts a transaction relies on without checking them again. */
  predicate StillTrue(db: Database, command: Command) {
    match command
    case CreateRequest(_, incidentId, _, _, _, _, _, _) =>
      incidentId in db.incidents && Operational(db.incidents[incidentId].status)
    case CreatePlan(_, incidentId, _, _, _, _, _, _, _) =>
      incidentId in db.incidents && Operational(db.incidents[incidentId].status)
    case CompleteStep(planId, _) => planId in db.plans && !db.plans[planId].status.PlanCancelled?
    case TransitionIncident(incidentId, _, target, _) =>
      !(target.Closed? && IncidentRepository.HasOpenDependencies(db, incidentId))
    case _ => true
  }

  /** The calls whose transaction checks every read-phase guard again, or rests it on columns that
      never change. */
  predicate Rechecked(command: Command) {
    !command.CreateRequest? && !command.CreatePlan? && !command.CompleteStep? && !command.TransitionIncident?
  }

  /** What a successful transaction has checked about the rows its call had read. */
  predicate Rechecks(db: Database, op: Operation) {
    match op
    case ApproveRequest(id, version, now, _) => DispatchRepository.Approvable(db, id, version, now)
    case AllocateUnit(id, _, _, _, _, _, _) => id in db.requests && db.requests[id].status.Allocatable()
    case MoveDeployment(id, _, target, _, _) => id in db.deployments && db.deployments[id].status.CanTransition(target)
    case SubmitPlan(id, version, _, _) => EvacuationRepository.Movable(db.plans, id, version, Draft)
    case ApprovePlan(id, version, _, _, _) => EvacuationRepository.Movable(db.plans, id, version, Submitted)
    case StartPlan(id, version, _, _) => EvacuationRepository.Movable(db.plans, id, version, PlanApproved)
    case CompleteStep(planId, stepId, _, _) => EvacuationRepository.StepReady(db.steps, planId, stepId)
    case CompletePlan(id, version, _, _) =>
      EvacuationRepository.Movable(db.plans, id, version, Executing) && Count(db.steps, IncompleteStepOf(id)) == 0
    case CancelPlan(id, _, _, _, _) => id in db.plans && db.plans[id].status.CanTransition(PlanCancelled)
    case MoveIncident(id, version, _, _, _, _) => id in db.incidents && db.incidents[id].version == version
    case _ => true
  }

  lemma SuccessRechecks(db: Database, op: Operation)
    requires Commit(db, op).Success?
    ensures Rechecks(db, op)
  {
  }

  // ---- one call at a time --------------------------------------------------------------------

  lemma ApproveRequestGuards(seen: Database, db: Database, call: Call)
    requires call.command.ApproveRequest? && ReadApproveRequest(seen, call).Success?
    requires DispatchRepository.Approvable(db, call.command.requestId, call.command.version, call.now)
    ensures ReadApproveRequest(db, call) == ReadApproveRequest(seen, call)
  {
  }

  lemma AllocateGuards(seen: Database, db: Database, call: Call)
    requires call.command.Allocate? && ReadAllocate(seen, call).Success?
    requires call.command.requestId in db.requests && db.requests[call.command.requestId].status.Allocatable()
    requires Evolves(seen, db)
    ensures ReadAllocate(db, call) == ReadAllocate(seen, call)
  {
    var c := call.command;
    assert RowEvolves(seen, db, RequestRef(c.requestId)) && RowEvolves(seen, db, UnitRef(c.unitId));
    assert RowEvolves(seen, db, IncidentRef(seen.requests[c.requestId].incidentId));
  }

  /** The event a deployment move records may name an older source status; nothing else differs. */
  lemma TransitionDeploymentGuards(seen: Database, db: Database, call: Call)
    requires call.command.TransitionDeployment? && ReadTransitionDeployment(seen, call).Success?
    requires call.command.deploymentId in db.deployments
             && db.deployments[call.command.deploymentId].status.CanTransition(call.command.deploymentTarget)
    requires Evolves(seen, db)
    ensures ReadTransitionDeployment(db, call).Success?
    ensures SameOperation(ReadTransitionDeployment(db, call).value, ReadTransitionDeployment(seen, call).value)
  {
    var d := call.command.deploymentId;
    assert RowEvolves(seen, db, DeploymentRef(d)) && RowEvolves(seen, db, UnitRef(seen.deployments[d].unitId));
  }

  lemma StepsNeverDecrease(a: Database, b: Database, planId: Id)
    requires Evolves(a, b)
    ensures Count(a.steps, StepOf(planId)) <= Count(b.steps, StepOf(planId))
  {
    forall s | s in Where(a.steps, StepOf(planId))
      ensures s in Where(b.steps, StepOf(planId))
    {
      assert RowEvolves(a, b, StepRef(s));
    }
    SubsetSize(Where(a.steps, StepOf(planId)), Where(b.steps, StepOf(planId)));
  }

  lemma SubmitGuards(seen: Database, db: Database, call: Call)
    requires call.command.Submit? && ReadSubmit(seen, call).Success?
    requires EvacuationRepository.Movable(db.plans, call.command.planId, call.command.version, Draft)
    requires Evolves(seen, db)
    ensures ReadSubmit(db, call) == ReadSubmit(seen, call)
  {
    assert RowEvolves(seen, db, PlanRef(call.command.planId));
    StepsNeverDecrease(seen, db, call.command.planId);
  }

  lemma ApprovePlanGuards(seen: Database, db: Database, call: Call)
    requires call.command.ApprovePlan? && ReadApprovePlan(seen, call).Success?
    requires EvacuationRepository.Movable(db.plans, call.command.planId, call.command.version, Submitted)
    requires Evolves(seen, db)
    ensures ReadApprovePlan(db, call) == ReadApprovePlan(seen, call)
  {
    assert RowEvolves(seen, db, PlanRef(call.command.planId));
  }

  lemma StartGuards(seen: Database, db: Database, call: Call)
    requires call.command.Start? && ReadStart(seen, call).Success?
    requires EvacuationRepository.Movable(db.plans, call.command.planId, call.command.version, PlanApproved)
    ensures ReadStart(db, call) == ReadStart(seen, call)
  {
  }

  lemma CompleteGuards(seen: Database, db: Database, call: Call)
    requires call.command.Complete? && ReadComplete(seen, call).Success?
    requires EvacuationRepository.Movable(db.plans, call.command.planId, call.command.version, Executing)
    requires Count(db.steps, IncompleteStepOf(call.command.planId)) == 0
    ensures ReadComplete(db, call) == ReadComplete(seen, call)
  {
  }

  lemma CancelGuards(seen: Database, db: Database, call: Call)
    requires call.command.Cancel? && ReadCancel(seen, call).Success?
    requires call.command.planId in db.plans && db.plans[call.command.planId].status.CanTransition(PlanCancelled)
    ensures ReadCancel(db, call) == ReadCancel(seen, call)
  {
  }

  lemma CreateRequestGuards(seen: Database, db: Database, call: Call)
    requires call.command.CreateRequest? && ReadCreateRequest(seen, call).Success?
    requires Evolves(seen, db)
    ensures ReadCreateRequest(db, call)
            == if StillTrue(db, call.command) then ReadCreateRequest(seen, call) else Failure(IncidentNotOperational)
  {
    var c := call.command;
    assert RowEvolves(seen, db, IncidentRef(c.incidentId)) && RowEvolves(seen, db, ZoneRef(c.zoneId));
  }

  lemma CreatePlanGuards(seen: Database, db: Database, call: Call)
    requires call.command.CreatePlan? && ReadCreatePlan(seen, call).Success?
    requires Evolves(seen, db)
    ensures ReadCreatePlan(db, call)
            == if StillTrue(db, call.command) then ReadCreatePlan(seen, call) else Failure(IncidentNotOperational)
  {
    var c := call.command;
    assert RowEvolves(seen, db, IncidentRef(c.incidentId)) && RowEvolves(seen, db, ZoneRef(c.zoneId));
    assert RowEvolves(seen, db, ShelterRef(c.shelterId));
  }

  lemma CompleteStepGuards(seen: Database, db: Database, call: Call)
    requires call.command.CompleteStep? && ReadCompleteStep(seen, call).Success?
    requires EvacuationRepository.StepReady(db.steps, call.command.planId, call.command.stepId)
    requires Evolves(seen, db) && EvacuationInvariant.StepsSound(db)
    ensures ReadCompleteStep(db, call)
            == if StillTrue(db, call.command) then ReadCompleteStep(seen, call) else Failure(PlanNotExecuting)
  {
    assert RowEvolves(seen, db, PlanRef(call.command.planId));
    assert EvacuationInvariant.StepSound(db.steps, db.plans, call.command.stepId);
  }

  /** A commit that finds the version it read finds the row it read. */
  lemma TransitionIncidentGuards(seen: Database, db: Database, call: Call)
    requires call.command.TransitionIncident? && ReadTransitionIncident(seen, call).Success?
    requires call.command.incidentId in db.incidents && db.incidents[call.command.incidentId].version == call.command.version
    requires Evolves(seen, db)
    ensures db.incidents[call.command.incidentId] == seen.incidents[call.command.incidentId]
    ensures ReadTransitionIncident(db, call)
            == if StillTrue(db, call.command) then ReadTransitionIncident(seen, call) else Failure(IncidentHasActiveOperations)
  {
    assert RowEvolves(seen, db, IncidentRef(call.command.incidentId));
  }

  // ---- any call ------------------------------------------------------------------------------

  /** Preparing the call again would give the same operation, up to the source status a deployment
      move records in its event. */
  ghost predicate SameOperation(again: Operation, op: Operation) {
    if op.MoveDeployment? then
      again.MoveDeployment? && op == MoveDeployment(again.deploymentId, again.version, again.deploymentTarget, again.now, op.event)
    else again == op
  }

  /** What the theorem below concludes about one call. */
  ghost predicate Concluded(db: Database, call: Call, op: Operation) {
    && (Read(db, call).Success? <==> StillTrue(db, call.command))
    && (Read(db, call).Success? ==> SameOperation(Read(db, call).value, op))
  }

  lemma DispatchGuards(seen: Database, db: Database, call: Call, op: Operation)
    requires call.command.ApproveRequest? || call.command.Allocate? || call.command.TransitionDeployment?
             || call.command.CreateRequest? || call.command.RegisterUnit?
    requires Read(seen, call) == Success(op) && Rechecks(db, op) && Evolves(seen, db)
    ensures Concluded(db, call, op)
  {
    var c := call.command;
    if c.ApproveRequest? {
      ApproveRequestGuards(seen, db, call);
    } else if c.Allocate? {
      AllocateGuards(seen, db, call);
    } else if c.TransitionDeployment? {
      TransitionDeploymentGuards(seen, db, call);
    } else if c.CreateRequest? {
      CreateRequestGuards(seen, db, call);
    }
  }

  lemma PlanGuards(seen: Database, db: Database, call: Call, op: Operation)
    requires call.command.Submit? || call.command.ApprovePlan? || call.command.Start? || call.command.Complete?
    requires Read(seen, call) == Success(op) && Rechecks(db, op) && Evolves(seen, db)
    ensures Concluded(db, call, op)
  {
    var c := call.command;
    if c.Submit? {
      SubmitGuards(seen, db, call);
    } else if c.ApprovePlan? {
      ApprovePlanGuards(seen, db, call);
    } else if c.Start? {
      StartGuards(seen, db, call);
    } else {
      CompleteGuards(seen, db, call);
    }
  }

  lemma OtherGuards(seen: Database, db: Database, call: Call, op: Operation)
    requires call.command.Cancel? || call.command.CreatePlan? || call.command.CompleteStep? || call.command.RegisterShelter?
             || call.command.Activate? || call.command.TransitionIncident?
    requires Read(seen, call) == Success(op) && Rechecks(db, op) && Evolves(seen, db)
    requires EvacuationInvariant.StepsSound(db)
    ensures Concluded(db, call, op)
  {
    var c := call.command;
    if c.Cancel? {
      CancelGuards(seen, db, call);
    } else if c.CreatePlan? {
      CreatePlanGuards(seen, db, call);
    } else if c.CompleteStep? {
      CompleteStepGuards(seen, db, call);
    } else if c.TransitionIncident? {
      TransitionIncidentGuards(seen, db, call);
    }
  }

  /** Whatever happened between a call's read and its commit, a commit that succeeds finds all the
      call's read-phase guards true again, and would have prepared the same operation, if and only
      if the few facts named by StillTrue hold. */
  lemma GuardsAtCommit(seen: Database, db: Database, call: Call, op: Operation)
    requires Read(seen, call) == Success(op) && Evolves(seen, db) && Commit(db, op).Success?
    requires EvacuationInvariant.StepsSound(db)
    ensures Read(db, call).Success? <==> StillTrue(db, call.command)
    ensures Read(db, call).Success? ==> SameOperation(Read(db, call).value, op)
  {
    SuccessRechecks(db, op);
    var c := call.command;
    if c.ApproveRequest? || c.Allocate? || c.TransitionDeployment? || c.CreateRequest? || c.RegisterUnit? {
      DispatchGuards(seen, db, call, op);
    } else if c.Submit? || c.ApprovePlan? || c.Start? || c.Complete? {
      PlanGuards(seen, db, call, op);
    } else {
      OtherGuards(seen, db, call, op);
    }
  }
}
