/** Identifiers, times, results and the text helpers shared by every component. */
module Basics {

  newtype byte = b: int | 0 <= b < 256

  /** Row identifiers are byte strings. */
  datatype Id = Id(bytes: seq<byte>)

  /** The absent identifier, stored as NULL. */
  const NO_ID := Id([])

  /** Times are whole nanoseconds on one time line. */
  type Time = int

  const SECOND: Time := 1_000_000_000
  const MINUTE: Time := 60 * SECOND

  /** Go's zero time, 1 January of year 1, counted from the Unix epoch. */
  const ZERO_TIME: Time := -62_135_596_800 * SECOND

  datatype Option<+T> = None | Some(value: T)

  /** One constructor per place where an operation gives up, so that two places
      sharing one public error code stay distinguishable. */
  datatype Error =
    // access control
    | RoleForbidden | CrossRegionForbidden | DeploymentNotOwned | CommanderRequired
    // missing rows
    | IncidentNotFound | ZoneNotFound | RegionNotFound | ShelterNotFound | PlanNotFound
    | UnitNotFound | RequestNotFound | DeploymentNotFound
    // malformed input
    | InvalidCapabilities | InvalidCapability | InvalidUnit | InvalidRequest | ZoneIncidentMismatch
    | InvalidShelter | InvalidSteps | InvalidPlan | InvalidStep | ReasonRequired
    | InvalidZones | InvalidIncident | InvalidZone | DuplicateZone | InvalidLimit | InvalidCursor
    // conflicts found while reading
    | IncidentNotOperational | InvalidTransition | NeedTimePassed | RequestNotAllocatable
    | UnitRegionMismatch | UnitTypeMismatch | UnitCapabilityMissing | ShelterRegionMismatch
    | ShelterIsClosed | PlanIncomplete | DeadlinePassed | PlanNotExecuting | StepsIncomplete
    | RegionInactive | IncidentHasActiveOperations | ReadVersionConflict
    // conflicts found inside a transaction
    | UnitExists | UnitNotClaimed | UnitHasActiveDeployment | UnitStateConflict
    | VersionConflict | ShelterExists | CapacityUnavailable | PlanExists
    | StepNotReady | ReservationInvariant | ReservationMissing | IncidentExists
    | ConstraintFailed
    // the driver or the caller's context
    | DriverError | ContextCancelled

  datatype Result<+T> = Success(value: T) | Failure(error: Error) {
    predicate IsFailure() {
      Failure?
    }

    function PropagateFailure<U>(): Result<U>
      requires Failure?
    {
      Failure(error)
    }

    function Extract(): T
      requires Success?
    {
      value
    }
  }

  function Min(a: nat, b: nat): (m: nat)
    ensures m <= a && m <= b && (m == a || m == b)
  {
    if a <= b then a else b
  }

  // ---- byte order on identifiers -------------------------------------------------------------

  /** SQLite compares TEXT columns byte by byte. */
  predicate BytesLess(a: seq<byte>, b: seq<byte>) {
    b != [] && (a == [] || a[0] < b[0] || (a[0] == b[0] && BytesLess(a[1..], b[1..])))
  }

  predicate IdLess(a: Id, b: Id) {
    BytesLess(a.bytes, b.bytes)
  }

  lemma {:induction false} BytesLessIrreflexive(a: seq<byte>)
    ensures !BytesLess(a, a)
  {
    if a != [] {
      BytesLessIrreflexive(a[1..]);
    }
  }

  lemma {:induction false} BytesLessTransitive(a: seq<byte>, b: seq<byte>, c: seq<byte>)
    requires BytesLess(a, b) && BytesLess(b, c)
    ensures BytesLess(a, c)
  {
    if a != [] && a[0] == b[0] && b[0] == c[0] {
      BytesLessTransitive(a[1..], b[1..], c[1..]);
    }
  }

  lemma {:induction false} BytesLessTotal(a: seq<byte>, b: seq<byte>)
    requires a != b
    ensures BytesLess(a, b) || BytesLess(b, a)
  {
    if a != [] && b != [] && a[0] == b[0] {
      assert a == [a[0]] + a[1..] && b == [b[0]] + b[1..];
      BytesLessTotal(a[1..], b[1..]);
    }
  }

  // ---- text ----------------------------------------------------------------------------------

  predicate IsSpace(c: char) {
    c in {' ', '\t', '\n', 0x0B as char, 0x0C as char, '\r', 0x85 as char, 0xA0 as char}
  }

  function TrimLeft(s: string): string {
    if s != [] && IsSpace(s[0]) then TrimLeft(s[1..]) else s
  }

  function TrimRight(s: string): string {
    if s != [] && IsSpace(s[|s| - 1]) then TrimRight(s[..|s| - 1]) else s
  }

  function TrimSpace(s: string): string {
    TrimRight(TrimLeft(s))
  }

  function LowerChar(c: char): char {
    if 'A' <= c <= 'Z' then (c as int + 32) as char else c
  }

  function UpperChar(c: char): char {
    if 'a' <= c <= 'z' then (c as int - 32) as char else c
  }

  function ToLower(s: string): string {
    seq(|s|, i requires 0 <= i < |s| => LowerChar(s[i]))
  }

  function ToUpper(s: string): string {
    seq(|s|, i requires 0 <= i < |s| => UpperChar(s[i]))
  }

  predicate Blank(s: string) {
    TrimSpace(s) == ""
  }
}
