/** What always holds between shelters, plans, steps and reservations, and that every evacuation
    transaction keeps it. */
module EvacuationInvariant {
  import opened Basics
  import opened Counting
  import opened EvacuationModel
  import opened Schema
  import opened EvacuationRepository

  type Reservations = map<Id, Reservation>
  type Steps = map<Id, Step>

  /** The incremental counter equals the sum it caches and never leaves 0..capacity; the version
      counts the reservations ever made and those released. */
  ghost predicate ShelterAgrees(rs: Reservations, s: Id, shelter: Shelter) {
    && 0 <= shelter.reserved <= shelter.capacity
    && shelter.reserved == Sum(rs, Held(s))
    && shelter.version == 1 + Count(rs, InShelter(s)) + Count(rs, ReleasedInShelter(s))
    && shelter.status.ShelterAvailable?
  }

  /** Draft and submitted plans have no reservation; approved and executing ones an active one,
      completed ones a consumed one; a cancelled plan has none or a released one. */
  ghost predicate PlanAgrees(rs: Reservations, shelters: map<Id, Shelter>, p: Id, plan: Plan) {
    && plan.shelterId in shelters
    && 1 <= plan.evacuees
    && (p in rs ==> rs[p].shelterId == plan.shelterId && rs[p].people == plan.evacuees)
    && (match plan.status
        case Draft => p !in rs
        case Submitted => p !in rs
        case PlanApproved => p in rs && rs[p].status.ReservationActive?
        case Executing => p in rs && rs[p].status.ReservationActive?
        case Completed => p in rs && rs[p].status.ReservationConsumed?
        case PlanCancelled => p in rs ==> rs[p].status.ReservationReleased?)
    && (if plan.status.PlanCancelled? then 2 <= plan.version <= 5 else plan.version == 1 + plan.status.Rank())
    && (plan.completedAt.Some? <==> plan.status.Completed?)
  }

  /** A step belongs to a plan; it is complete only once the plan was started, only after every
      earlier step of that plan, and always when the plan is completed. */
  ghost predicate StepSound(steps: Steps, plans: map<Id, Plan>, s: Id) {
    && s in steps
    && steps[s].planId in plans
    && (steps[s].completedAt.Some? ==> plans[steps[s].planId].status.Started())
    && (plans[steps[s].planId].status.Completed? ==> steps[s].completedAt.Some?)
  }

  /** The completed steps of a plan form a prefix of its step order. */
  ghost predicate PrefixComplete(steps: Steps, a: Id, b: Id) {
    (a in steps && b in steps && steps[a].planId == steps[b].planId && steps[a].order < steps[b].order
     && steps[b].completedAt.Some?)
    ==> steps[a].completedAt.Some?
  }

  ghost predicate SheltersAgree(db: Database) {
    forall s {:trigger ShelterAgrees(db.reservations, s, db.shelters[s])} ::
      s in db.shelters ==> ShelterAgrees(db.reservations, s, db.shelters[s])
  }

  ghost predicate PlansAgree(db: Database) {
    forall p {:trigger PlanAgrees(db.reservations, db.shelters, p, db.plans[p])} ::
      p in db.plans ==> PlanAgrees(db.reservations, db.shelters, p, db.plans[p])
  }

  ghost predicate ReservationsHavePlans(db: Database) {
    forall p :: p in db.reservations ==> p in db.plans
  }

  ghost predicate StepsSound(db: Database) {
    && (forall s {:trigger StepSound(db.steps, db.plans, s)} :: s in db.steps ==> StepSound(db.steps, db.plans, s))
    && (forall a, b {:trigger PrefixComplete(db.steps, a, b)} :: PrefixComplete(db.steps, a, b))
  }

  ghost predicate Invariant(db: Database) {
    SheltersAgree(db) && PlansAgree(db) && ReservationsHavePlans(db) && StepsSound(db)
  }

  // ---- steps ---------------------------------------------------------------------------------

  /** Moving a plan forward keeps the steps sound, provided completing it found them all complete. */
  lemma StepsAfterPlanMove(before: Database, after: Database, id: Id, row: Plan)
    requires StepsSound(before) && id in before.plans
    requires after.steps == before.steps && after.plans == before.plans[id := row]
    requires before.plans[id].status.CanTransition(row.status)
    requires row.status.Completed? ==> Count(before.steps, IncompleteStepOf(id)) == 0
    ensures StepsSound(after)
  {
    CountZero(before.steps, IncompleteStepOf(id));
    forall s | s in after.steps
      ensures StepSound(after.steps, after.plans, s)
    {
      assert StepSound(before.steps, before.plans, s);
    }
    forall a, b
      ensures PrefixComplete(after.steps, a, b)
    {
      assert PrefixComplete(before.steps, a, b);
    }
  }

  lemma CompleteStepKeeps(db: Database, planId: Id, stepId: Id, now: Time, event: Event)
    requires Invariant(db) && CompleteStep(db, planId, stepId, now, event).Success?
    requires planId in db.plans && db.plans[planId].status.Started()
    ensures Invariant(CompleteStep(db, planId, stepId, now, event).value)
  {
    var after := CompleteStep(db, planId, stepId, now, event).value;
    CountZero(db.steps, EarlierIncompleteStepOf(planId, db.steps[stepId].order));
    forall s | s in after.steps
      ensures StepSound(after.steps, after.plans, s)
    {
      assert StepSound(db.steps, db.plans, s);
    }
    forall a, b
      ensures PrefixComplete(after.steps, a, b)
    {
      assert PrefixComplete(db.steps, a, b);
    }
    assert SheltersAgree(after) by {
      forall s | s in after.shelters
        ensures ShelterAgrees(after.reservations, s, after.shelters[s])
      {
        assert ShelterAgrees(db.reservations, s, db.shelters[s]);
      }
    }
    assert PlansAgree(after) by {
      forall p | p in after.plans
        ensures PlanAgrees(after.reservations, after.shelters, p, after.plans[p])
      {
        assert PlanAgrees(db.reservations, db.shelters, p, db.plans[p]);
      }
    }
  }

  // ---- creation ------------------------------------------------------------------------------

  lemma CreateShelterKeeps(db: Database, id: Id, shelter: Shelter)
    requires Invariant(db) && CreateShelter(db, id, shelter).Success?
    requires shelter.reserved == 0 && shelter.version == 1 && shelter.status.ShelterAvailable?
    ensures Invariant(CreateShelter(db, id, shelter).value)
  {
    var after := CreateShelter(db, id, shelter).value;
    forall p | p in db.reservations
      ensures db.reservations[p].shelterId != id
    {
      assert PlanAgrees(db.reservations, db.shelters, p, db.plans[p]);
    }
    CountZero(db.reservations, InShelter(id));
    CountZero(db.reservations, ReleasedInShelter(id));
    SumOfNothing(db.reservations, id);
    forall s | s in after.shelters
      ensures ShelterAgrees(after.reservations, s, after.shelters[s])
    {
      assert s != id ==> ShelterAgrees(db.reservations, s, db.shelters[s]);
    }
    forall p | p in after.plans
      ensures PlanAgrees(after.reservations, after.shelters, p, after.plans[p])
    {
      assert PlanAgrees(db.reservations, db.shelters, p, db.plans[p]);
    }
    SameSteps(db, after);
  }

  lemma {:induction false} SumOfNothing(rs: Reservations, s: Id)
    requires forall p :: p in rs ==> rs[p].shelterId != s
    ensures Sum(rs, Held(s)) == 0
    decreases |rs|
  {
    if rs != map[] {
      var p :| p in rs;
      SumWithout(rs, p, Held(s));
      assert (rs - {p}).Keys == rs.Keys - {p};
      SumOfNothing(rs - {p}, s);
    }
  }

  lemma SameSteps(before: Database, after: Database)
    requires StepsSound(before) && after.steps == before.steps && after.plans == before.plans
    ensures StepsSound(after)
  {
    forall s | s in after.steps
      ensures StepSound(after.steps, after.plans, s)
    {
      assert StepSound(before.steps, before.plans, s);
    }
    forall a, b
      ensures PrefixComplete(after.steps, a, b)
    {
      assert PrefixComplete(before.steps, a, b);
    }
  }

  /** The inserted steps are new rows of the new plan, none of them complete. */
  lemma {:induction false} InsertedSteps(table: Steps, planId: Id, steps: seq<Step>, ids: seq<Id>, k: nat)
    requires k <= |steps| && InsertSteps(table, planId, steps, ids, k).Success?
    ensures var rows := InsertSteps(table, planId, steps, ids, k).value;
            && (forall s :: s in table ==> s in rows && rows[s] == table[s])
            && (forall s :: s in rows && s !in table ==> rows[s].planId == planId && rows[s].completedAt.None?)
  {
    if k > 0 {
      InsertedSteps(table, planId, steps, ids, k - 1);
    }
  }

  /** The tables after a plan was inserted with rows of its own. */
  ghost predicate PlanInserted(before: Database, after: Database, id: Id, row: Plan) {
    && id !in before.plans && after.plans == before.plans[id := row]
    && after.shelters == before.shelters && after.reservations == before.reservations
    && (forall s :: s in before.steps ==> s in after.steps && after.steps[s] == before.steps[s])
    && (forall s :: s in after.steps && s !in before.steps ==> after.steps[s].planId == id && after.steps[s].completedAt.None?)
  }

  lemma StepsAfterPlanInsert(before: Database, after: Database, id: Id, row: Plan)
    requires PlanInserted(before, after, id, row) && StepsSound(before) && row.status.Draft?
    ensures StepsSound(after)
  {
    forall s | s in after.steps
      ensures StepSound(after.steps, after.plans, s)
    {
      assert s in before.steps ==> StepSound(before.steps, before.plans, s);
    }
    forall a, b
      ensures PrefixComplete(after.steps, a, b)
    {
      assert PrefixComplete(before.steps, a, b);
      assert b in before.steps ==> StepSound(before.steps, before.plans, b);
    }
  }

  lemma PlanInsertKeeps(before: Database, after: Database, id: Id, row: Plan)
    requires PlanInserted(before, after, id, row) && Invariant(before)
    requires row.status.Draft? && row.version == 1 && row.shelterId in before.shelters && 1 <= row.evacuees
    requires row.completedAt.None?
    ensures Invariant(after)
  {
    StepsAfterPlanInsert(before, after, id, row);
    forall s | s in after.shelters
      ensures ShelterAgrees(after.reservations, s, after.shelters[s])
    {
      assert ShelterAgrees(before.reservations, s, before.shelters[s]);
    }
    forall p | p in after.plans
      ensures PlanAgrees(after.reservations, after.shelters, p, after.plans[p])
    {
      assert p != id ==> PlanAgrees(before.reservations, before.shelters, p, before.plans[p]);
    }
  }

  lemma CreatePlanKeeps(db: Database, id: Id, plan: Plan, steps: seq<Step>, stepIds: seq<Id>, event: Event)
    requires Invariant(db) && CreatePlan(db, id, plan, steps, stepIds, event).Success?
    requires plan.status.Draft? && plan.version == 1 && plan.shelterId in db.shelters
    ensures Invariant(CreatePlan(db, id, plan, steps, stepIds, event).value)
  {
    var after := CreatePlan(db, id, plan, steps, stepIds, event).value;
    InsertedSteps(db.steps, id, steps, stepIds, |steps|);
    PlanInsertKeeps(db, after, id, after.plans[id]);
  }

  // ---- plan moves ----------------------------------------------------------------------------

  /** A move that touches the plan row alone: submit, start, and cancelling a plan without an
      active reservation. */
  lemma PlanRowMoveKeeps(before: Database, after: Database, id: Id, row: Plan)
    requires Invariant(before) && id in before.plans
    requires after.plans == before.plans[id := row]
    requires after.steps == before.steps && after.shelters == before.shelters && after.reservations == before.reservations
    requires before.plans[id].status.CanTransition(row.status) && !row.status.Completed? && !row.status.PlanApproved?
    requires row.status.PlanCancelled? ==> id !in before.reservations || !before.reservations[id].status.ReservationActive?
    requires row == before.plans[id].(status := row.status, version := before.plans[id].version + 1,
                                      completedAt := None, updatedAt := row.updatedAt)
    ensures Invariant(after)
  {
    StepsAfterPlanMove(before, after, id, row);
    forall s | s in after.shelters
      ensures ShelterAgrees(after.reservations, s, after.shelters[s])
    {
      assert ShelterAgrees(before.reservations, s, before.shelters[s]);
    }
    forall p | p in after.plans
      ensures PlanAgrees(after.reservations, after.shelters, p, after.plans[p])
    {
      assert PlanAgrees(before.reservations, before.shelters, p, before.plans[p]);
    }
  }

  lemma UpdatePlanStateKeeps(db: Database, id: Id, version: int, from: PlanStatus, to: PlanStatus, now: Time, event: Event)
    requires Invariant(db) && UpdatePlanState(db, id, version, from, to, now, event).Success?
    requires (from.Draft? && to.Submitted?) || (from.PlanApproved? && to.Executing?)
    ensures Invariant(UpdatePlanState(db, id, version, from, to, now, event).value)
  {
    var after := UpdatePlanState(db, id, version, from, to, now, event).value;
    assert PlanAgrees(db.reservations, db.shelters, id, db.plans[id]);
    PlanRowMoveKeeps(db, after, id, after.plans[id]);
  }

  /** One reservation row was written and the counter of its shelter moved by what it holds. */
  ghost predicate Booked(before: Database, after: Database, id: Id, row: Plan, r: Reservation, now: Time) {
    && id in before.plans && row.shelterId == before.plans[id].shelterId && row.evacuees == before.plans[id].evacuees
    && r.shelterId == row.shelterId && r.people == row.evacuees && row.shelterId in before.shelters
    && before.plans[id].status.CanTransition(row.status)
    && after.plans == before.plans[id := row]
    && after.reservations == before.reservations[id := r]
    && after.steps == before.steps
    && after.shelters.Keys == before.shelters.Keys
    && (forall s :: s in before.shelters && s != r.shelterId ==> after.shelters[s] == before.shelters[s])
  }

  /** Approving adds the plan's people to its shelter. */
  lemma ShelterAfterApproval(rs: Reservations, p: Id, r: Reservation, s: Id, shelter: Shelter, now: Time)
    requires ShelterAgrees(rs, s, shelter) && p !in rs && r.status.ReservationActive? && 1 <= r.people
    requires r.shelterId == s ==> shelter.AvailableCapacity() >= r.people
    ensures ShelterAgrees(rs[p := r], s, if r.shelterId == s then WithReserved(shelter, r.people, now) else shelter)
  {
    SumWrite(rs, p, r, Held(s));
    CountWrite(rs, p, r, InShelter(s));
    CountWrite(rs, p, r, ReleasedInShelter(s));
  }

  /** Completing changes no shelter: a consumed reservation still holds its places. */
  lemma ShelterAfterConsumption(rs: Reservations, p: Id, s: Id, shelter: Shelter)
    requires ShelterAgrees(rs, s, shelter) && p in rs && rs[p].status.ReservationActive?
    ensures ShelterAgrees(rs[p := ConsumedReservation(rs[p])], s, shelter)
  {
    var r := ConsumedReservation(rs[p]);
    SumWrite(rs, p, r, Held(s));
    CountWrite(rs, p, r, InShelter(s));
    CountWrite(rs, p, r, ReleasedInShelter(s));
  }

  /** Cancelling gives the people back, and the counter always covers them. */
  lemma ShelterAfterRelease(rs: Reservations, p: Id, s: Id, shelter: Shelter, now: Time)
    requires ShelterAgrees(rs, s, shelter) && p in rs && rs[p].status.ReservationActive? && 1 <= rs[p].people
    ensures rs[p].shelterId == s ==> shelter.reserved >= rs[p].people
    ensures ShelterAgrees(rs[p := rs[p].(status := ReservationReleased, releasedAt := Some(now))], s,
                          if rs[p].shelterId == s then WithReserved(shelter, -rs[p].people, now) else shelter)
  {
    var r := rs[p].(status := ReservationReleased, releasedAt := Some(now));
    SumWrite(rs, p, r, Held(s));
    SumWithout(rs, p, Held(s));
    CountWrite(rs, p, r, InShelter(s));
    CountWrite(rs, p, r, ReleasedInShelter(s));
  }

  /** When the plan that booked changes, every other plan still agrees with its own reservation. */
  lemma OtherPlansAgree(before: Database, after: Database, id: Id, row: Plan, r: Reservation, now: Time)
    requires PlansAgree(before) && Booked(before, after, id, row, r, now)
    requires PlanAgrees(after.reservations, after.shelters, id, row)
    ensures PlansAgree(after)
  {
    forall p | p in after.plans
      ensures PlanAgrees(after.reservations, after.shelters, p, after.plans[p])
    {
      assert PlanAgrees(before.reservations, before.shelters, p, before.plans[p]);
    }
  }

  lemma ApprovePlanKeeps(db: Database, id: Id, version: int, reservationId: Id, approver: Id, now: Time, event: Event)
    requires Invariant(db) && ApprovePlan(db, id, version, reservationId, approver, now, event).Success?
    ensures Invariant(ApprovePlan(db, id, version, reservationId, approver, now, event).value)
  {
    var after := ApprovePlan(db, id, version, reservationId, approver, now, event).value;
    var r := after.reservations[id];
    assert PlanAgrees(db.reservations, db.shelters, id, db.plans[id]);
    StepsAfterPlanMove(db, after, id, after.plans[id]);
    forall s | s in after.shelters
      ensures ShelterAgrees(after.reservations, s, after.shelters[s])
    {
      assert ShelterAgrees(db.reservations, s, db.shelters[s]);
      ShelterAfterApproval(db.reservations, id, r, s, db.shelters[s], now);
    }
    OtherPlansAgree(db, after, id, after.plans[id], r, now);
  }

  lemma CompletePlanKeeps(db: Database, id: Id, version: int, now: Time, event: Event)
    requires Invariant(db) && CompletePlan(db, id, version, now, event).Success?
    ensures Invariant(CompletePlan(db, id, version, now, event).value)
  {
    var after := CompletePlan(db, id, version, now, event).value;
    assert PlanAgrees(db.reservations, db.shelters, id, db.plans[id]);
    StepsAfterPlanMove(db, after, id, after.plans[id]);
    forall s | s in after.shelters
      ensures ShelterAgrees(after.reservations, s, after.shelters[s])
    {
      assert ShelterAgrees(db.reservations, s, db.shelters[s]);
      ShelterAfterConsumption(db.reservations, id, s, db.shelters[s]);
    }
    OtherPlansAgree(db, after, id, after.plans[id], after.reservations[id], now);
  }

  lemma ReleaseKeeps(before: Database, after: Database, id: Id, row: Plan, r: Reservation, now: Time)
    requires Invariant(before) && Booked(before, after, id, row, r, now) && id in before.reservations
    requires before.reservations[id].status.ReservationActive?
    requires r == before.reservations[id].(status := ReservationReleased, releasedAt := Some(now))
    requires after.shelters[r.shelterId] == WithReserved(before.shelters[r.shelterId], -r.people, now)
    requires PlanAgrees(after.reservations, after.shelters, id, row) && row.status.PlanCancelled?
    ensures Invariant(after)
  {
    StepsAfterPlanMove(before, after, id, row);
    forall s | s in after.shelters
      ensures ShelterAgrees(after.reservations, s, after.shelters[s])
    {
      assert ShelterAgrees(before.reservations, s, before.shelters[s]);
      ShelterAfterRelease(before.reservations, id, s, before.shelters[s], now);
    }
    OtherPlansAgree(before, after, id, row, r, now);
  }

  lemma CancelWithoutReservationKeeps(db: Database, id: Id, version: int, reason: string, now: Time, event: Event)
    requires Invariant(db) && CancelPlan(db, id, version, reason, now, event).Success?
    requires id !in db.reservations || !db.reservations[id].status.ReservationActive?
    ensures Invariant(CancelPlan(db, id, version, reason, now, event).value)
  {
    assert PlanAgrees(db.reservations, db.shelters, id, db.plans[id]);
    var after := CancelPlan(db, id, version, reason, now, event).value;
    PlanRowMoveKeeps(db, after, id, after.plans[id]);
  }

  lemma CancelWithReservationKeeps(db: Database, id: Id, version: int, reason: string, now: Time, event: Event)
    requires Invariant(db) && CancelPlan(db, id, version, reason, now, event).Success?
    requires id in db.reservations && db.reservations[id].status.ReservationActive?
    ensures Invariant(CancelPlan(db, id, version, reason, now, event).value)
  {
    assert PlanAgrees(db.reservations, db.shelters, id, db.plans[id]);
    var after := CancelPlan(db, id, version, reason, now, event).value;
    var row, r := after.plans[id], after.reservations[id];
    assert Booked(db, after, id, row, r, now);
    ReleaseKeeps(db, after, id, row, r, now);
  }

  lemma CancelPlanKeeps(db: Database, id: Id, version: int, reason: string, now: Time, event: Event)
    requires Invariant(db) && CancelPlan(db, id, version, reason, now, event).Success?
    ensures Invariant(CancelPlan(db, id, version, reason, now, event).value)
  {
    if id in db.reservations && db.reservations[id].status.ReservationActive? {
      CancelWithReservationKeeps(db, id, version, reason, now, event);
    } else {
      CancelWithoutReservationKeeps(db, id, version, reason, now, event);
    }
  }

  /** Transactions of the other components leave the evacuation tables alone. */
  lemma OtherComponentKeeps(before: Database, after: Database)
    requires Invariant(before)
    requires after.shelters == before.shelters && after.plans == before.plans
    requires after.steps == before.steps && after.reservations == before.reservations
    ensures Invariant(after)
  {
    SameSteps(before, after);
    forall s | s in after.shelters
      ensures ShelterAgrees(after.reservations, s, after.shelters[s])
    {
      assert ShelterAgrees(before.reservations, s, before.shelters[s]);
    }
    forall p | p in after.plans
      ensures PlanAgrees(after.reservations, after.shelters, p, after.plans[p])
    {
      assert PlanAgrees(before.reservations, before.shelters, p, before.plans[p]);
    }
  }

  // ---- dead branches -------------------------------------------------------------------------

  /** Cancelling never finds a counter smaller than the reservation it releases. */
  lemma CancelPlanAlwaysReleases(db: Database, id: Id, version: int, reason: string, now: Time, event: Event)
    requires Invariant(db)
    ensures CancelPlan(db, id, version, reason, now, event) != Failure(ReservationInvariant)
  {
    if id in db.plans && id in db.reservations && db.reservations[id].status.ReservationActive? {
      var s := db.plans[id].shelterId;
      assert PlanAgrees(db.reservations, db.shelters, id, db.plans[id]);
      assert ShelterAgrees(db.reservations, s, db.shelters[s]);
      ShelterAfterRelease(db.reservations, id, s, db.shelters[s], now);
    }
  }

  /** Completing an executing plan always finds its reservation, and finds it active. */
  lemma CompletePlanFindsReservation(db: Database, id: Id, version: int, now: Time, event: Event)
    requires Invariant(db)
    ensures CompletePlan(db, id, version, now, event) != Failure(ReservationMissing)
    ensures Movable(db.plans, id, version, Executing) ==> id in db.reservations && db.reservations[id].status.ReservationActive?
  {
    if id in db.plans {
      assert PlanAgrees(db.reservations, db.shelters, id, db.plans[id]);
    }
  }

  /** Approving fails in its insert only when a generated id is taken: the plan never has one yet. */
  lemma ApprovePlanNeverDoubleBooks(db: Database, id: Id, version: int, reservationId: Id, approver: Id, now: Time, event: Event)
    requires Invariant(db)
    requires ApprovePlan(db, id, version, reservationId, approver, now, event) == Failure(ConstraintFailed)
    ensures ReservationIdTaken(db.reservations, reservationId) || EventIdTaken(db.audit, event.id)
  {
    assert PlanAgrees(db.reservations, db.shelters, id, db.plans[id]);
  }
}
