/** What each evacuation transaction answers and leaves, column by column: when it commits, and which
    rows it writes then. */
module EvacuationOutcomes {
  import opened Basics
  import opened Counting
  import opened EvacuationModel
  import opened Schema
  import opened Rows
  import opened Operations
  import opened LogIndependence
  import EvacuationInvariant
  import EvacuationRepository

  /** The moves of the plan lifecycle: to the next stop, or to a cancellation before completion. */
  lemma PlanLifecycle(from: PlanStatus, to: PlanStatus)
    ensures from.CanTransition(to)
            <==> (to == PlanCancelled && from != Completed && from != PlanCancelled)
                 || (from == Draft && to == Submitted) || (from == Submitted && to == PlanApproved)
                 || (from == PlanApproved && to == Executing) || (from == Executing && to == Completed)
  {
  }

  // ---- shelters ------------------------------------------------------------------------------

  lemma InsertShelterExactlyWhen(db: Database, op: Operation)
    requires op.InsertShelter?
    ensures Commit(db, op).Success? <==>
              && op.shelterId !in db.shelters && op.shelter.regionId in db.regions && 0 <= op.shelter.reserved <= op.shelter.capacity
              && forall s :: s in db.shelters ==>
                   db.shelters[s].regionId != op.shelter.regionId || db.shelters[s].code != op.shelter.code
    ensures Commit(db, op).Success? ==>
              var after := Commit(db, op).value;
              after == db.(shelters := after.shelters) && Wrote(db.shelters, after.shelters, op.shelterId, op.shelter)
  {
  }

  // ---- submitting and starting ---------------------------------------------------------------

  predicate AtVersion(db: Database, p: Id, version: int, status: PlanStatus) {
    p in db.plans && db.plans[p].version == version && db.plans[p].status == status
  }

  lemma SubmitExactlyWhen(db: Database, op: Operation)
    requires op.SubmitPlan?
    ensures Commit(db, op).Success? <==> AtVersion(db, op.planId, op.version, Draft) && NewEventId(db, op.event.id)
    ensures Commit(db, op).Success? ==>
              var after, p := Commit(db, op).value, db.plans[op.planId];
              after == db.(plans := after.plans, audit := db.audit + [op.event])
              && Wrote(db.plans, after.plans, op.planId,
                       p.(status := Submitted, completedAt := None, version := op.version + 1, updatedAt := op.now))
  {
  }

  lemma StartExactlyWhen(db: Database, op: Operation)
    requires op.StartPlan?
    ensures Commit(db, op).Success? <==> AtVersion(db, op.planId, op.version, PlanApproved) && NewEventId(db, op.event.id)
    ensures Commit(db, op).Success? ==>
              var after, p := Commit(db, op).value, db.plans[op.planId];
              after == db.(plans := after.plans, audit := db.audit + [op.event])
              && Wrote(db.plans, after.plans, op.planId,
                       p.(status := Executing, completedAt := None, version := op.version + 1, updatedAt := op.now))
  {
  }

  // ---- approval ------------------------------------------------------------------------------

  /** Room is counted from the reservations themselves: all that were not released, and the plan's people. */
  ghost predicate Fits(db: Database, p: Id)
    requires p in db.plans && db.plans[p].shelterId in db.shelters
  {
    Sum(db.reservations, Held(db.plans[p].shelterId)) + db.plans[p].evacuees <= db.shelters[db.plans[p].shelterId].capacity
  }

  predicate NewReservationId(db: Database, id: Id) {
    forall p :: p in db.reservations ==> db.reservations[p].id != id
  }

  lemma SubmittedPlan(db: Database, p: Id)
    requires EvacuationInvariant.Invariant(db) && p in db.plans
    ensures db.plans[p].shelterId in db.shelters && db.plans[p].evacuees >= 1
    ensures db.plans[p].status == Submitted ==> p !in db.reservations
    ensures Fits(db, p) <==> EvacuationRepository.HasRoom(db.shelters, db.plans[p].shelterId, db.plans[p].evacuees)
  {
    var s := db.plans[p].shelterId;
    assert EvacuationInvariant.PlanAgrees(db.reservations, db.shelters, p, db.plans[p]);
    assert EvacuationInvariant.ShelterAgrees(db.reservations, s, db.shelters[s]);
  }

  lemma ApprovalShape(db: Database, op: Operation)
    requires op.ApprovePlan? && AtVersion(db, op.planId, op.version, Submitted)
    requires op.planId !in db.reservations && db.plans[op.planId].shelterId in db.shelters && db.plans[op.planId].evacuees >= 1
    requires NewReservationId(db, op.reservationId)
    ensures Commit(db, op)
            == if EvacuationRepository.HasRoom(db.shelters, db.plans[op.planId].shelterId, db.plans[op.planId].evacuees)
               then AppendAudit(EvacuationRepository.AfterApprove(db, op.planId, op.reservationId, op.event.actorId, op.now), op.event)
               else Failure(CapacityUnavailable)
  {
  }

  lemma AfterApproveLogged(db: Database, op: Operation) returns (after: Database)
    requires op.ApprovePlan? && op.planId in db.plans && db.plans[op.planId].shelterId in db.shelters
    ensures after == EvacuationRepository.AfterApprove(db, op.planId, op.reservationId, op.event.actorId, op.now)
    ensures after.audit == db.audit && Approves(db, op, after)
  {
    after := EvacuationRepository.AfterApprove(db, op.planId, op.reservationId, op.event.actorId, op.now);
  }

  /** The rows an approval writes: places taken, plan approved, reservation active. */
  ghost predicate Approves(db: Database, op: Operation, after: Database)
    requires op.ApprovePlan? && op.planId in db.plans && db.plans[op.planId].shelterId in db.shelters
  {
    var p := db.plans[op.planId];
    var s := db.shelters[p.shelterId];
    && after == db.(shelters := after.shelters, plans := after.plans, reservations := after.reservations, audit := after.audit)
    && Wrote(db.shelters, after.shelters, p.shelterId, s.(reserved := s.reserved + p.evacuees, version := s.version + 1, updatedAt := op.now))
    && Wrote(db.plans, after.plans, op.planId,
             p.(status := PlanApproved, approvedBy := Some(op.event.actorId), approvedAt := Some(op.now), version := p.version + 1,
                updatedAt := op.now))
    && Wrote(db.reservations, after.reservations, op.planId,
             Reservation(op.reservationId, p.shelterId, p.evacuees, ReservationActive, op.now, None))
  }

  /** With new ids, a submitted plan of the presented version is approved exactly when its people fit
      beside those already held a place, the last place included, and refused for capacity otherwise. */
  lemma PlanApprovalExactlyWhen(db: Database, op: Operation)
    requires EvacuationInvariant.Invariant(db) && op.ApprovePlan? && AtVersion(db, op.planId, op.version, Submitted)
    requires NewReservationId(db, op.reservationId) && NewEventId(db, op.event.id)
    ensures db.plans[op.planId].shelterId in db.shelters
    ensures Commit(db, op).Success? <==> Fits(db, op.planId)
    ensures !Fits(db, op.planId) ==> Commit(db, op) == Failure(CapacityUnavailable)
    ensures Fits(db, op.planId) ==>
              Approves(db, op, Commit(db, op).value) && Commit(db, op).value.audit == db.audit + [op.event]
  {
    SubmittedPlan(db, op.planId);
    ApprovalShape(db, op);
    var after := AfterApproveLogged(db, op);
    AppendsExactlyWhen(db, after, op.event);
  }

  /** Nothing else is ever approved. */
  lemma ApprovedWasSubmitted(db: Database, op: Operation)
    requires op.ApprovePlan? && Commit(db, op).Success?
    ensures AtVersion(db, op.planId, op.version, Submitted) && NewReservationId(db, op.reservationId) && NewEventId(db, op.event.id)
  {
  }

  // ---- steps ---------------------------------------------------------------------------------

  /** The step is the plan's, is open, and every step before it in the same plan is complete. */
  predicate StepIsNext(db: Database, p: Id, s: Id) {
    && s in db.steps && db.steps[s].planId == p && db.steps[s].completedAt == None
    && forall x :: x in db.steps && db.steps[x].planId == p && db.steps[x].order < db.steps[s].order ==> db.steps[x].completedAt != None
  }

  lemma StepReadyIsNext(db: Database, p: Id, s: Id)
    ensures EvacuationRepository.StepReady(db.steps, p, s) <==> StepIsNext(db, p, s)
  {
    if s in db.steps {
      CountZero(db.steps, EarlierIncompleteStepOf(p, db.steps[s].order));
    }
  }

  /** A step completes exactly when it is the plan's next one, whatever the steps of other plans look like. */
  lemma StepExactlyWhen(db: Database, op: Operation)
    requires op.CompleteStep?
    ensures Commit(db, op).Success? <==> StepIsNext(db, op.planId, op.stepId) && NewEventId(db, op.event.id)
    ensures !StepIsNext(db, op.planId, op.stepId) ==> Commit(db, op) == Failure(StepNotReady)
    ensures Commit(db, op).Success? ==>
              var after, s := Commit(db, op).value, db.steps[op.stepId];
              after == db.(steps := after.steps, audit := db.audit + [op.event])
              && Wrote(db.steps, after.steps, op.stepId, s.(completedAt := Some(op.now), completedBy := Some(op.event.actorId)))
  {
    StepReadyIsNext(db, op.planId, op.stepId);
  }

  /** The open step of lowest order. */
  ghost predicate IsLowestOpen(db: Database, p: Id, s: Id) {
    && s in db.steps && db.steps[s].planId == p && db.steps[s].completedAt == None
    && forall x :: x in db.steps && db.steps[x].planId == p && db.steps[x].completedAt == None ==> db.steps[s].order <= db.steps[x].order
  }

  lemma {:induction false} LowestExists(db: Database, p: Id, open: set<Id>) returns (s: Id)
    requires open != {} && forall x :: x in open ==> x in db.steps
    ensures s in open && forall x :: x in open ==> db.steps[s].order <= db.steps[x].order
    decreases |open|
  {
    s :| s in open;
    if open != {s} {
      var rest := open - {s};
      assert open == rest + {s};
      var t := LowestExists(db, p, rest);
      if db.steps[t].order < db.steps[s].order {
        s := t;
      }
    }
  }

  /** A plan with an open step always has one that can be completed at once. */
  lemma SomeStepIsNext(db: Database, p: Id, x: Id) returns (s: Id)
    requires x in db.steps && db.steps[x].planId == p && db.steps[x].completedAt == None
    ensures IsLowestOpen(db, p, s) && StepIsNext(db, p, s)
  {
    var open := set y | y in db.steps && db.steps[y].planId == p && db.steps[y].completedAt == None;
    assert x in open;
    s := LowestExists(db, p, open);
  }

  // ---- completion ----------------------------------------------------------------------------

  predicate AllStepsDone(db: Database, p: Id) {
    forall s :: s in db.steps && db.steps[s].planId == p ==> db.steps[s].completedAt != None
  }

  lemma CompletionShape(db: Database, op: Operation)
    requires EvacuationInvariant.Invariant(db) && op.CompletePlan?
    ensures AtVersion(db, op.planId, op.version, Executing) ==>
              op.planId in db.reservations && db.reservations[op.planId].status == ReservationActive
    ensures if AllStepsDone(db, op.planId) && AtVersion(db, op.planId, op.version, Executing) then
              op.planId in db.reservations
              && Commit(db, op) == AppendAudit(EvacuationRepository.AfterComplete(db, op.planId, op.now), op.event)
            else Commit(db, op).Failure?
  {
    CountZero(db.steps, IncompleteStepOf(op.planId));
    EvacuationInvariant.CompletePlanFindsReservation(db, op.planId, op.version, op.now, op.event);
  }

  /** The rows a completion writes: no counter moves, the reservation is consumed. */
  ghost predicate Completes(db: Database, op: Operation, after: Database)
    requires op.CompletePlan? && op.planId in db.plans && op.planId in db.reservations
  {
    && after == db.(plans := after.plans, reservations := after.reservations, audit := after.audit)
    && Wrote(db.plans, after.plans, op.planId,
             db.plans[op.planId].(status := Completed, completedAt := Some(op.now), version := db.plans[op.planId].version + 1, updatedAt := op.now))
    && Wrote(db.reservations, after.reservations, op.planId, db.reservations[op.planId].(status := ReservationConsumed))
  }

  lemma AfterCompleteLogged(db: Database, op: Operation) returns (after: Database)
    requires op.CompletePlan? && op.planId in db.plans && op.planId in db.reservations
    requires db.reservations[op.planId].status == ReservationActive
    ensures after == EvacuationRepository.AfterComplete(db, op.planId, op.now) && after.audit == db.audit && Completes(db, op, after)
  {
    after := EvacuationRepository.AfterComplete(db, op.planId, op.now);
  }

  /** An executing plan of the presented version completes exactly when each of its own steps is complete. */
  lemma CompletionExactlyWhen(db: Database, op: Operation)
    requires EvacuationInvariant.Invariant(db) && op.CompletePlan?
    ensures Commit(db, op).Success? <==>
              AtVersion(db, op.planId, op.version, Executing) && AllStepsDone(db, op.planId) && NewEventId(db, op.event.id)
    ensures Commit(db, op).Success? ==>
              op.planId in db.reservations && Completes(db, op, Commit(db, op).value)
              && Commit(db, op).value.audit == db.audit + [op.event]
  {
    CompletionShape(db, op);
    if AllStepsDone(db, op.planId) && AtVersion(db, op.planId, op.version, Executing) {
      var after := AfterCompleteLogged(db, op);
      AppendsExactlyWhen(db, after, op.event);
    }
  }

  // ---- cancellation --------------------------------------------------------------------------

  predicate MayCancel(db: Database, p: Id, version: int) {
    && p in db.plans && db.plans[p].version == version
    && db.plans[p].status != Completed && db.plans[p].status != PlanCancelled
  }

  /** Whether a plan has places to give back. */
  predicate HoldsPlaces(db: Database, p: Id)
    requires p in db.plans
  {
    db.plans[p].status == PlanApproved || db.plans[p].status == Executing
  }

  lemma CancellableExactlyWhen(db: Database, p: Id, version: int)
    requires EvacuationInvariant.Invariant(db)
    ensures Cancellable(db, p, version) <==> MayCancel(db, p, version)
    ensures MayCancel(db, p, version) ==>
              && db.plans[p].shelterId in db.shelters
              && (HoldsPlaces(db, p) <==> EvacuationRepository.HasActiveReservation(db.reservations, p))
              && (HoldsPlaces(db, p) ==> db.reservations[p].people == db.plans[p].evacuees)
  {
    if MayCancel(db, p, version) {
      var s := db.plans[p].shelterId;
      assert EvacuationInvariant.PlanAgrees(db.reservations, db.shelters, p, db.plans[p]);
      assert EvacuationInvariant.ShelterAgrees(db.reservations, s, db.shelters[s]);
      if HoldsPlaces(db, p) {
        EvacuationInvariant.ShelterAfterRelease(db.reservations, p, s, db.shelters[s], 0);
      }
    }
  }

  /** The rows a cancellation writes: an approved or executing plan gives its people's places back. */
  ghost predicate Cancels(db: Database, op: Operation, after: Database)
    requires op.CancelPlan? && op.planId in db.plans && db.plans[op.planId].shelterId in db.shelters
    requires HoldsPlaces(db, op.planId) ==> op.planId in db.reservations
  {
    var p := db.plans[op.planId];
    var s := db.shelters[p.shelterId];
    && after == db.(shelters := after.shelters, plans := after.plans, reservations := after.reservations, audit := after.audit)
    && Wrote(db.plans, after.plans, op.planId, p.(status := PlanCancelled, version := p.version + 1, updatedAt := op.now))
    && (if HoldsPlaces(db, op.planId) then
          && Wrote(db.shelters, after.shelters, p.shelterId,
                   s.(reserved := s.reserved - p.evacuees, version := s.version + 1, updatedAt := op.now))
          && Wrote(db.reservations, after.reservations, op.planId,
                   db.reservations[op.planId].(status := ReservationReleased, releasedAt := Some(op.now)))
        else after.shelters == db.shelters && after.reservations == db.reservations)
  }

  lemma ReleaseLogged(db: Database, op: Operation) returns (after: Database)
    requires op.CancelPlan? && op.planId in db.plans && db.plans[op.planId].shelterId in db.shelters && HoldsPlaces(db, op.planId)
    requires EvacuationRepository.HasActiveReservation(db.reservations, op.planId)
    requires db.reservations[op.planId].people == db.plans[op.planId].evacuees
    ensures after == EvacuationRepository.AfterCancel(db, op.planId, op.now) && after.audit == db.audit && Cancels(db, op, after)
  {
    after := EvacuationRepository.AfterCancel(db, op.planId, op.now);
  }

  lemma PlainCancelLogged(db: Database, op: Operation) returns (after: Database)
    requires op.CancelPlan? && op.planId in db.plans && db.plans[op.planId].shelterId in db.shelters && !HoldsPlaces(db, op.planId)
    requires !EvacuationRepository.HasActiveReservation(db.reservations, op.planId)
    ensures after == EvacuationRepository.AfterCancel(db, op.planId, op.now) && after.audit == db.audit && Cancels(db, op, after)
  {
    after := EvacuationRepository.AfterCancel(db, op.planId, op.now);
  }

  lemma AfterCancelLogged(db: Database, op: Operation) returns (after: Database)
    requires EvacuationInvariant.Invariant(db) && op.CancelPlan? && MayCancel(db, op.planId, op.version)
    ensures db.plans[op.planId].shelterId in db.shelters && (HoldsPlaces(db, op.planId) ==> op.planId in db.reservations)
    ensures EvacuationRepository.HasActiveReservation(db.reservations, op.planId) ==> db.plans[op.planId].shelterId in db.shelters
    ensures after == EvacuationRepository.AfterCancel(db, op.planId, op.now) && after.audit == db.audit && Cancels(db, op, after)
  {
    CancellableExactlyWhen(db, op.planId, op.version);
    if HoldsPlaces(db, op.planId) {
      after := ReleaseLogged(db, op);
    } else {
      after := PlainCancelLogged(db, op);
    }
  }

  lemma CancelAppends(db: Database, op: Operation) returns (after: Database, e: Event)
    requires EvacuationInvariant.Invariant(db) && op.CancelPlan? && MayCancel(db, op.planId, op.version)
    ensures db.plans[op.planId].shelterId in db.shelters && (HoldsPlaces(db, op.planId) ==> op.planId in db.reservations)
    ensures Commit(db, op) == AppendAudit(after, e) && after.audit == db.audit && Cancels(db, op, after)
    ensures e == op.event.(detail := PlanCancellation(op.reason, db.plans[op.planId].status))
  {
    after := AfterCancelLogged(db, op);
    e := op.event.(detail := PlanCancellation(op.reason, db.plans[op.planId].status));
    CancellableExactlyWhen(db, op.planId, op.version);
    CancelPlanShape(db, op.planId, op.version, op.reason, op.now, op.event);
  }

  lemma CancelRefused(db: Database, op: Operation)
    requires EvacuationInvariant.Invariant(db) && op.CancelPlan? && !MayCancel(db, op.planId, op.version)
    ensures Commit(db, op).Failure?
  {
    CancellableExactlyWhen(db, op.planId, op.version);
    CancelPlanShape(db, op.planId, op.version, op.reason, op.now, op.event);
  }

  /** A plan that is neither completed nor cancelled can always be cancelled in its presented version. */
  lemma CancellationExactlyWhen(db: Database, op: Operation)
    requires EvacuationInvariant.Invariant(db) && op.CancelPlan?
    ensures Commit(db, op).Success? <==> MayCancel(db, op.planId, op.version) && NewEventId(db, op.event.id)
  {
    if MayCancel(db, op.planId, op.version) {
      var after, e := CancelAppends(db, op);
      AppendsExactlyWhen(db, after, e);
    } else {
      CancelRefused(db, op);
    }
  }

  /** A committed cancellation gives back exactly the places the plan held; its event tells the reason
      and the status the plan had. */
  lemma CancellationOutcome(db: Database, op: Operation, after: Database)
    requires EvacuationInvariant.Invariant(db) && op.CancelPlan? && Commit(db, op) == Success(after)
    ensures MayCancel(db, op.planId, op.version)
    ensures db.plans[op.planId].shelterId in db.shelters && (HoldsPlaces(db, op.planId) ==> op.planId in db.reservations)
    ensures Cancels(db, op, after)
    ensures after.audit == db.audit + [op.event.(detail := PlanCancellation(op.reason, db.plans[op.planId].status))]
  {
    CancellationExactlyWhen(db, op);
    var x, e := CancelAppends(db, op);
    AppendsExactlyWhen(db, x, e);
  }

  lemma CancellationRefusals(db: Database, op: Operation)
    requires EvacuationInvariant.Invariant(db) && op.CancelPlan? && Commit(db, op).Failure?
    ensures Commit(db, op).error == if op.planId !in db.plans || db.plans[op.planId].version != op.version then VersionConflict
                                    else if !MayCancel(db, op.planId, op.version) then InvalidTransition
                                    else ConstraintFailed
  {
    if MayCancel(db, op.planId, op.version) {
      var after, e := CancelAppends(db, op);
    }
  }

  lemma CompletionRefusals(db: Database, op: Operation)
    requires EvacuationInvariant.Invariant(db) && op.CompletePlan? && Commit(db, op).Failure?
    ensures Commit(db, op).error == if !AllStepsDone(db, op.planId) then StepsIncomplete
                                    else if !AtVersion(db, op.planId, op.version, Executing) then VersionConflict
                                    else ConstraintFailed
  {
    CompletionShape(db, op);
    CountZero(db.steps, IncompleteStepOf(op.planId));
  }

  // ---- a new plan ----------------------------------------------------------------------------

  /** Well-formed steps, numbered from one. */
  predicate Numbered(steps: seq<Step>) {
    forall i :: 0 <= i < |steps| ==> steps[i].order == i + 1 && steps[i].expectedMinutes > 0 && !steps[i].role.OtherRole?
  }

  /** Generated ids that are neither in the table nor among themselves repeated. */
  predicate NewIds<V>(table: map<Id, V>, ids: seq<Id>, n: nat)
    requires n <= |ids|
  {
    (forall i :: 0 <= i < n ==> ids[i] !in table) && (forall i, j :: 0 <= i < j < n ==> ids[i] != ids[j])
  }

  /** The table with the first n steps of plan p, open, under their ids. */
  ghost predicate StepsAdded(before: map<Id, Step>, after: map<Id, Step>, p: Id, steps: seq<Step>, ids: seq<Id>, n: nat)
    requires n <= |steps| == |ids|
  {
    && (forall s :: s in after <==> s in before || s in ids[..n])
    && (forall s :: s in before ==> s in after && after[s] == before[s])
    && (forall i :: 0 <= i < n ==> ids[i] in after && after[ids[i]] == steps[i].(planId := p, completedAt := None, completedBy := None))
  }

  lemma NextStepInsertable(before: map<Id, Step>, rows: map<Id, Step>, p: Id, steps: seq<Step>, ids: seq<Id>, n: nat)
    requires n < |steps| == |ids| && Numbered(steps) && (forall s :: s in before ==> before[s].planId != p)
    requires StepsAdded(before, rows, p, steps, ids, n)
    ensures EvacuationRepository.StepInsertable(rows, ids[n], EvacuationRepository.StepRow(steps, n, p)) <==> ids[n] !in rows
  {
    forall s | s in rows
      ensures rows[s].planId == p ==> rows[s].order <= n
    {
      if s in ids[..n] {
        var i :| 0 <= i < n && ids[i] == s;
      }
    }
  }

  lemma StepAdded(before: map<Id, Step>, rows: map<Id, Step>, p: Id, steps: seq<Step>, ids: seq<Id>, n: nat)
    requires n < |steps| == |ids| && StepsAdded(before, rows, p, steps, ids, n) && ids[n] !in rows
    ensures StepsAdded(before, rows[ids[n] := EvacuationRepository.StepRow(steps, n, p)], p, steps, ids, n + 1)
  {
    assert ids[..n + 1] == ids[..n] + [ids[n]];
    forall i | 0 <= i < n
      ensures ids[i] != ids[n]
    {
      assert ids[i] in ids[..n];
    }
  }

  lemma OneMoreNewId(before: map<Id, Step>, rows: map<Id, Step>, p: Id, steps: seq<Step>, ids: seq<Id>, n: nat)
    requires n < |steps| == |ids| && StepsAdded(before, rows, p, steps, ids, n) && NewIds(before, ids, n)
    ensures ids[n] !in rows <==> NewIds(before, ids, n + 1)
  {
    if ids[n] !in rows {
      forall i | 0 <= i < n
        ensures ids[i] != ids[n]
      {
        assert ids[i] in ids[..n];
      }
    } else if ids[n] in ids[..n] {
      var i :| 0 <= i < n && ids[i] == ids[n];
    }
  }

  lemma InsertOneMore(before: map<Id, Step>, rows: map<Id, Step>, p: Id, steps: seq<Step>, ids: seq<Id>, n: nat)
    requires n < |steps| == |ids| && Numbered(steps) && (forall s :: s in before ==> before[s].planId != p)
    requires EvacuationRepository.InsertSteps(before, p, steps, ids, n) == Success(rows)
    requires NewIds(before, ids, n) && StepsAdded(before, rows, p, steps, ids, n)
    ensures var r := EvacuationRepository.InsertSteps(before, p, steps, ids, n + 1);
            (r.Success? <==> NewIds(before, ids, n + 1)) && (r.Success? ==> StepsAdded(before, r.value, p, steps, ids, n + 1))
  {
    NextStepInsertable(before, rows, p, steps, ids, n);
    OneMoreNewId(before, rows, p, steps, ids, n);
    if ids[n] !in rows {
      StepAdded(before, rows, p, steps, ids, n);
    }
  }

  /** All steps go in exactly when their ids are new. */
  lemma {:induction false} InsertStepsExactlyWhen(before: map<Id, Step>, p: Id, steps: seq<Step>, ids: seq<Id>, n: nat)
    requires n <= |steps| == |ids| && Numbered(steps) && forall s :: s in before ==> before[s].planId != p
    ensures var r := EvacuationRepository.InsertSteps(before, p, steps, ids, n);
            (r.Success? <==> NewIds(before, ids, n)) && (r.Success? ==> StepsAdded(before, r.value, p, steps, ids, n))
  {
    if n > 0 {
      InsertStepsExactlyWhen(before, p, steps, ids, n - 1);
      var r := EvacuationRepository.InsertSteps(before, p, steps, ids, n - 1);
      if r.Success? {
        InsertOneMore(before, r.value, p, steps, ids, n - 1);
      } else {
        EvacuationRepository.InsertStepsStops(before, p, steps, ids, n - 1, n);
      }
    }
  }

  /** No other plan has the name in that zone of the incident. */
  predicate NewPlanName(db: Database, plan: Plan) {
    forall p :: p in db.plans ==>
      db.plans[p].incidentId != plan.incidentId || db.plans[p].zoneId != plan.zoneId || db.plans[p].name != plan.name
  }

  predicate CanInsertPlan(db: Database, op: Operation)
    requires op.InsertPlan? && |op.steps| == |op.stepIds|
  {
    && op.planId !in db.plans && NewPlanName(db, op.plan) && op.plan.evacuees >= 1
    && NewIds(db.steps, op.stepIds, |op.stepIds|)
  }

  lemma NewPlanHasNoSteps(db: Database, p: Id)
    requires EvacuationInvariant.Invariant(db) && p !in db.plans
    ensures forall s :: s in db.steps ==> db.steps[s].planId != p
  {
    forall s | s in db.steps
      ensures db.steps[s].planId != p
    {
      assert EvacuationInvariant.StepSound(db.steps, db.plans, s);
    }
  }

  lemma InsertableExactlyWhen(db: Database, op: Operation)
    requires op.InsertPlan? && |op.steps| == |op.stepIds| && Numbered(op.steps)
    requires op.planId !in db.plans ==> forall s :: s in db.steps ==> db.steps[s].planId != op.planId
    ensures PlanInsertable(db, op.planId, op.plan, op.steps, op.stepIds) <==> CanInsertPlan(db, op)
    ensures CanInsertPlan(db, op) ==>
              StepsAdded(db.steps, EvacuationRepository.InsertSteps(db.steps, op.planId, op.steps, op.stepIds, |op.steps|).value,
                         op.planId, op.steps, op.stepIds, |op.steps|)
  {
    if op.planId !in db.plans {
      InsertStepsExactlyWhen(db.steps, op.planId, op.steps, op.stepIds, |op.steps|);
    }
  }

  lemma AfterCreateLogged(db: Database, op: Operation, rows: map<Id, Step>) returns (after: Database)
    requires op.InsertPlan?
    ensures after == EvacuationRepository.AfterCreate(db, op.planId, op.plan, rows) && after.audit == db.audit
    ensures after == db.(plans := after.plans, steps := rows)
    ensures Wrote(db.plans, after.plans, op.planId, op.plan.(approvedBy := None, approvedAt := None, completedAt := None))
  {
    after := EvacuationRepository.AfterCreate(db, op.planId, op.plan, rows);
  }

  /** A plan and its numbered steps go in exactly when all ids and the name are new. */
  lemma PlanInsertExactlyWhen(db: Database, op: Operation)
    requires EvacuationInvariant.Invariant(db) && op.InsertPlan? && |op.steps| == |op.stepIds| && Numbered(op.steps)
    ensures Commit(db, op).Success? <==> CanInsertPlan(db, op) && NewEventId(db, op.event.id)
    ensures Commit(db, op).Success? ==>
              var after := Commit(db, op).value;
              && after == db.(plans := after.plans, steps := after.steps, audit := db.audit + [op.event])
              && Wrote(db.plans, after.plans, op.planId, op.plan.(approvedBy := None, approvedAt := None, completedAt := None))
              && StepsAdded(db.steps, after.steps, op.planId, op.steps, op.stepIds, |op.steps|)
  {
    if op.planId !in db.plans {
      NewPlanHasNoSteps(db, op.planId);
    }
    InsertableExactlyWhen(db, op);
    CreatePlanShape(db, op.planId, op.plan, op.steps, op.stepIds, op.event);
    if CanInsertPlan(db, op) {
      var rows := EvacuationRepository.InsertSteps(db.steps, op.planId, op.steps, op.stepIds, |op.steps|).value;
      var after := AfterCreateLogged(db, op, rows);
      AppendsExactlyWhen(db, after, op.event);
    }
  }
}
