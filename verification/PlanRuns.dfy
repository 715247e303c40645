/** Finishing a plan: an executing plan always has a way to its completion. */
module PlanRuns {
  import opened Basics
  import opened EvacuationModel
  import opened Schema
  import opened Rows
  import opened Operations
  import opened Services
  import opened Interleaving
  import opened Refinement
  import opened Access
  import opened CallOutcomes
  import opened EvacuationOutcomes

  /** The calls one after the other, each in one piece. */
  function AtomicAll(db: Database, calls: seq<Call>): Result<Database>
    decreases |calls|
  {
    if calls == [] then Success(db)
    else
      var next :- Atomic(db, calls[0]);
      AtomicAll(next, calls[1..])
  }

  /** The steps of a plan that are still open. */
  ghost function OpenSteps(db: Database, p: Id): set<Id> {
    set s | s in db.steps && db.steps[s].planId == p && db.steps[s].completedAt == None
  }

  predicate IsCommander(actor: Actor) {
    actor.userId != NO_ID && actor.role == Commander
  }

  predicate IsExecuting(db: Database, p: Id) {
    p in db.plans && db.plans[p].status == Executing
  }

  /** Ids no event has, all different. */
  predicate NewEventIds(db: Database, ids: seq<Id>) {
    (forall i :: 0 <= i < |ids| ==> NewEventId(db, ids[i])) && (forall i, j :: 0 <= i < j < |ids| ==> ids[i] != ids[j])
  }

  lemma AtomicKeeps(db: Database, call: Call, after: Database)
    requires Consistent(db) && Atomic(db, call) == Success(after)
    ensures Consistent(after)
  {
    CommitKeeps(db, InFlight(call, Read(db, call).value, db));
  }

  lemma StepCallReads(db: Database, call: Call) returns (op: Operation)
    requires call.command.CompleteStep? && IsCommander(call.actor) && IsExecuting(db, call.command.planId)
    ensures Read(db, call) == Success(op) && op.CompleteStep? && op.planId == call.command.planId && op.stepId == call.command.stepId
    ensures op.event.id == call.auditId
  {
    op := ReadCompleteStep(db, call).value;
  }

  /** An executing plan with an open step takes the completion of the lowest one, whatever the steps of
      other plans look like. */
  lemma NextStepCompletes(db: Database, actor: Actor, p: Id, x: Id, now: Time, id: Id) returns (s: Id, after: Database)
    requires IsCommander(actor) && IsExecuting(db, p) && x in OpenSteps(db, p) && NewEventId(db, id)
    ensures IsLowestOpen(db, p, s) && Atomic(db, Call(actor, Command.CompleteStep(p, s), now, id)) == Success(after)
    ensures after.plans == db.plans && OpenSteps(after, p) == OpenSteps(db, p) - {s} && s in OpenSteps(db, p)
    ensures forall other :: NewEventId(db, other) && other != id ==> NewEventId(after, other)
  {
    s := SomeStepIsNext(db, p, x);
    var op := StepCallReads(db, Call(actor, Command.CompleteStep(p, s), now, id));
    StepExactlyWhen(db, op);
    after := Commit(db, op).value;
  }

  lemma CompleteCallReads(db: Database, call: Call) returns (op: Operation)
    requires call.command.Complete? && IsCommander(call.actor) && IsExecuting(db, call.command.planId)
    requires OpenSteps(db, call.command.planId) == {}
    ensures Read(db, call) == Success(op) && op.CompletePlan? && op.planId == call.command.planId && op.version == call.command.version
    ensures op.event.id == call.auditId && AllStepsDone(db, op.planId)
  {
    var p := call.command.planId;
    forall s | s in db.steps && db.steps[s].planId == p
      ensures db.steps[s].completedAt != None
    {
      assert s !in OpenSteps(db, p);
    }
    AcceptedExactlyWhen(db, call);
    op := Read(db, call).value;
    AcceptedCallsPrepare(db, call, op);
  }

  lemma PlanCompletes(db: Database, actor: Actor, p: Id, now: Time, id: Id) returns (call: Call, after: Database)
    requires Consistent(db) && IsCommander(actor) && IsExecuting(db, p) && OpenSteps(db, p) == {} && NewEventId(db, id)
    ensures Atomic(db, call) == Success(after) && p in after.plans && after.plans[p].status == Completed
    ensures p in after.reservations && after.reservations[p].status == ReservationConsumed
  {
    call := Call(actor, Command.Complete(p, db.plans[p].version), now, id);
    var op := CompleteCallReads(db, call);
    CompletionExactlyWhen(db, op);
    after := Commit(db, op).value;
  }

  lemma PrependCall(db: Database, call: Call, next: Database, calls: seq<Call>)
    requires Atomic(db, call) == Success(next)
    ensures AtomicAll(db, [call] + calls) == AtomicAll(next, calls)
  {
    assert ([call] + calls)[1..] == calls;
  }

  /** From every state the invariants admit, an executing plan can be brought to completion: its open
      steps from the lowest up, and then the plan itself, which consumes its reservation. */
  lemma {:induction false} ExecutingPlansCanFinish(db: Database, actor: Actor, p: Id, now: Time, ids: seq<Id>)
    returns (calls: seq<Call>, after: Database)
    requires Consistent(db) && IsCommander(actor) && IsExecuting(db, p)
    requires |ids| == |OpenSteps(db, p)| + 1 && NewEventIds(db, ids)
    ensures AtomicAll(db, calls) == Success(after) && |calls| == |ids|
    ensures p in after.plans && after.plans[p].status == Completed
    ensures p in after.reservations && after.reservations[p].status == ReservationConsumed
    decreases |ids|
  {
    if OpenSteps(db, p) == {} {
      var call;
      call, after := PlanCompletes(db, actor, p, now, ids[0]);
      PrependCall(db, call, after, []);
      calls := [call];
    } else {
      var x :| x in OpenSteps(db, p);
      var s, next := NextStepCompletes(db, actor, p, x, now, ids[0]);
      var call := Call(actor, Command.CompleteStep(p, s), now, ids[0]);
      AtomicKeeps(db, call, next);
      var rest;
      rest, after := ExecutingPlansCanFinish(next, actor, p, now, ids[1..]);
      PrependCall(db, call, next, rest);
      calls := [call] + rest;
    }
  }
}
