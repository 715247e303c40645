/** Shelters, evacuation plans, steps and reservations, and the plan transition table. */
module EvacuationModel {
  import opened Basics

  datatype ShelterStatus = ShelterAvailable | ShelterRestricted | ShelterClosed

  datatype Shelter = Shelter(regionId: Id, code: string, name: string, capacity: int, reserved: int,
                             status: ShelterStatus, version: int, createdAt: Time, updatedAt: Time)
  {
    function AvailableCapacity(): int {
      capacity - reserved
    }

    predicate Valid() {
      && regionId != NO_ID
      && !Blank(code) && !Blank(name)
      && 1 <= capacity
      && 0 <= reserved <= capacity
    }
  }

  datatype PlanStatus = Draft | Submitted | PlanApproved | Executing | Completed | PlanCancelled
  {
    predicate CanTransition(target: PlanStatus) {
      match this
      case Draft => target.Submitted? || target.PlanCancelled?
      case Submitted => target.PlanApproved? || target.PlanCancelled?
      case PlanApproved => target.Executing? || target.PlanCancelled?
      case Executing => target.Completed? || target.PlanCancelled?
      case Completed => false
      case PlanCancelled => false
    }

    /** Position in the lifecycle draft, submitted, approved, executing, completed;
        cancellation comes after everything it can follow. */
    function Rank(): nat {
      match this
      case Draft => 0
      case Submitted => 1
      case PlanApproved => 2
      case Executing => 3
      case Completed => 4
      case PlanCancelled => 5
    }

    predicate Started() {
      Executing? || Completed? || PlanCancelled?
    }
  }

  datatype Plan = Plan(
    incidentId: Id, zoneId: Id, shelterId: Id, name: string, evacuees: int, status: PlanStatus,
    deadlineAt: Time, approvedBy: Option<Id>, approvedAt: Option<Time>, completedAt: Option<Time>,
    version: int, createdBy: Id, createdAt: Time, updatedAt: Time)
  {
    predicate Valid(now: Time) {
      && incidentId != NO_ID && zoneId != NO_ID && shelterId != NO_ID
      && !Blank(name)
      && 1 <= evacuees
      && now < deadlineAt
    }
  }

  datatype StepRole = StepCommander | StepFieldOperator | OtherRole(text: string)

  datatype Step = Step(planId: Id, order: int, instruction: string, role: StepRole, expectedMinutes: int,
                       completedAt: Option<Time>, completedBy: Option<Id>, createdAt: Time)
  {
    predicate Valid() {
      && 1 <= order
      && !Blank(instruction)
      && !role.OtherRole?
      && 1 <= expectedMinutes <= 1440
    }
  }

  datatype ReservationStatus = ReservationActive | ReservationReleased | ReservationConsumed

  /** plan_id is unique in the table, so the table is kept as a map from plan to reservation. */
  datatype Reservation = Reservation(id: Id, shelterId: Id, people: int, status: ReservationStatus,
                                     createdAt: Time, releasedAt: Option<Time>)

  // Row conditions that statements select by.

  function StepOf(p: Id): Step -> bool {
    (s: Step) => s.planId == p
  }

  function IncompleteStepOf(p: Id): Step -> bool {
    (s: Step) => s.planId == p && s.completedAt.None?
  }

  function EarlierIncompleteStepOf(p: Id, order: int): Step -> bool {
    (s: Step) => s.planId == p && s.order < order && s.completedAt.None?
  }

  function InShelter(s: Id): Reservation -> bool {
    (r: Reservation) => r.shelterId == s
  }

  function ReleasedInShelter(s: Id): Reservation -> bool {
    (r: Reservation) => r.shelterId == s && r.status.ReservationReleased?
  }

  /** The places a reservation holds in a shelter: released ones hold none. */
  function Held(s: Id): Reservation -> nat {
    (r: Reservation) =>
      if r.shelterId == s && !r.status.ReservationReleased? && r.people > 0 then r.people else 0
  }
}
