/** Durable jobs: the rows, and what each repository statement does to the table. */
module Jobs {
  import opened Basics
  import opened Ordering

  datatype JobStatus = Pending | Running | RetryWait | Succeeded | PermanentlyFailed | JobCancelled
  {
    predicate Waiting() {
      Pending? || RetryWait?
    }
  }

  datatype Job = Job(kind: string, status: JobStatus, attempts: nat, maxAttempts: nat, availableAt: Time,
                     leaseOwner: Option<Id>, leaseUntil: Option<Time>, lastError: string, version: int, updatedAt: Time)

  type Table = map<Id, Job>

  /** job_attempts: for each job, the worker that recorded each attempt number. */
  type AttemptRows = map<Id, map<int, Id>>

  /** A claimed row, with the attempts it had before the claim incremented them. */
  datatype Claimed = Claimed(id: Id, kind: string, attempts: nat, maxAttempts: nat)

  datatype Outcome = Succeeds | Retryable | Permanent

  /** What the worker finds when it executes a claimed job. */
  datatype Handling = NoHandler | Returns | Fails(message: string)

  // ---- backoff -------------------------------------------------------------------------------

  function Pow2(n: nat): (p: nat)
    ensures p >= 1
  {
    if n == 0 then 1 else 2 * Pow2(n - 1)
  }

  function Backoff(attempt: int): Time {
    var seconds := Min(300, Pow2(if attempt < 1 then 1 else attempt));
    seconds * SECOND
  }

  lemma {:induction false} Pow2Grows(m: nat, n: nat)
    requires m <= n
    ensures Pow2(m) <= Pow2(n)
  {
    if m < n {
      Pow2Grows(m, n - 1);
    }
  }

  /** The delay doubles from two seconds and is capped at five minutes from the ninth attempt on. */
  lemma BackoffValues(attempt: int)
    ensures 2 * SECOND <= Backoff(attempt) <= 300 * SECOND
    ensures attempt <= 1 ==> Backoff(attempt) == 2 * SECOND
    ensures 1 <= attempt <= 8 ==> Backoff(attempt) == Pow2(attempt) * SECOND
    ensures attempt >= 9 ==> Backoff(attempt) == 300 * SECOND
  {
    assert Pow2(1) == 2 && Pow2(2) == 4 && Pow2(3) == 8 && Pow2(4) == 16;
    assert Pow2(5) == 32 && Pow2(6) == 64 && Pow2(7) == 128;
    assert Pow2(8) == 256 && Pow2(9) == 512;
    if attempt > 1 {
      Pow2Grows(1, attempt);
    }
    if attempt >= 9 {
      Pow2Grows(9, attempt);
    }
    if 1 <= attempt <= 8 {
      Pow2Grows(attempt, 8);
    }
  }

  // ---- statements ----------------------------------------------------------------------------

  predicate Expired(job: Job, now: Time) {
    job.status.Running? && job.leaseUntil.Some? && job.leaseUntil.value <= now
  }

  /** The rows Claim may take: waiting or with an expired lease, and due. */
  predicate Claimable(job: Job, now: Time) {
    (job.status.Waiting() || Expired(job, now)) && job.availableAt <= now
  }

  function KeyOf(jobs: Table, id: Id): Key
    requires id in jobs
  {
    Key(jobs[id].availableAt, id)
  }

  function Queue(jobs: Table, now: Time): set<Key> {
    set id | id in jobs && Claimable(jobs[id], now) :: Key(jobs[id].availableAt, id)
  }

  /** The rows Claim selects, in ORDER BY available_at, id. */
  ghost function Picked(jobs: Table, now: Time, batch: nat): seq<Key> {
    Top(Ascending, Queue(jobs, now), batch)
  }

  ghost predicate IsPicked(jobs: Table, now: Time, batch: nat, id: Id) {
    id in jobs && KeyOf(jobs, id) in Picked(jobs, now, batch)
  }

  function Leased(job: Job, owner: Id, until: Time, now: Time): Job {
    job.(status := Running, leaseOwner := Some(owner), leaseUntil := Some(until), attempts := job.attempts + 1,
         version := job.version + 1, updatedAt := now)
  }

  ghost function ClaimTable(jobs: Table, owner: Id, now: Time, lease: Time, batch: nat): Table {
    map id | id in jobs :: if IsPicked(jobs, now, batch, id) then Leased(jobs[id], owner, now + lease, now) else jobs[id]
  }

  function AsClaimed(jobs: Table, id: Id): Claimed
    requires id in jobs
  {
    Claimed(id, jobs[id].kind, jobs[id].attempts, jobs[id].maxAttempts)
  }

  /** Adds the attempt unless the job is unknown or already has an attempt of that number. */
  function RecordRow(rows: AttemptRows, id: Id, number: nat, worker: Id): AttemptRows {
    if id in rows && number !in rows[id] then rows[id := rows[id][number := worker]] else rows
  }

  function StatusFor(outcome: Outcome): JobStatus {
    match outcome
    case Succeeds => Succeeded
    case Retryable => RetryWait
    case Permanent => PermanentlyFailed
  }

  /** Records how an execution ended and clears the lease, whoever holds it by now. */
  function Finished(job: Job, attempts: nat, outcome: Outcome, cause: string, now: Time): Job {
    job.(status := StatusFor(outcome),
         availableAt := if outcome.Retryable? then now + Backoff(attempts) else now,
         leaseOwner := None, leaseUntil := None, lastError := cause, updatedAt := now)
  }

  function FinishTable(jobs: Table, claimed: Claimed, outcome: Outcome, cause: string, now: Time): Table {
    if claimed.id in jobs then jobs[claimed.id := Finished(jobs[claimed.id], claimed.attempts, outcome, cause, now)]
    else jobs
  }

  function Recovered(job: Job, now: Time): Job {
    if Expired(job, now) then
      job.(status := RetryWait, leaseOwner := None, leaseUntil := None, availableAt := now, updatedAt := now)
    else job
  }

  function RecoverTable(jobs: Table, now: Time): Table {
    map id | id in jobs :: Recovered(jobs[id], now)
  }

  /** The outcome execute reports, from what it found and the attempts the claim returned. */
  function OutcomeOf(handling: Handling, attempts: nat, maxAttempts: nat): Outcome {
    match handling
    case NoHandler => Permanent
    case Returns => Succeeds
    case Fails(_) => if attempts + 1 >= maxAttempts then Permanent else Retryable
  }

  function CauseOf(handling: Handling, kind: string): string {
    match handling
    case NoHandler => "no handler for " + kind
    case Returns => ""
    case Fails(message) => message
  }

  // ---- claim order ---------------------------------------------------------------------------

  lemma PickedInQueue(jobs: Table, now: Time, batch: nat, k: Key)
    requires k in Picked(jobs, now, batch)
    ensures k in Queue(jobs, now) && k.id in jobs && k == KeyOf(jobs, k.id) && Claimable(jobs[k.id], now)
  {
    SortContents(Ascending, Queue(jobs, now), k);
  }

  lemma PickedIsClaimable(jobs: Table, now: Time, batch: nat, id: Id)
    requires IsPicked(jobs, now, batch, id)
    ensures Claimable(jobs[id], now)
  {
    PickedInQueue(jobs, now, batch, KeyOf(jobs, id));
  }
}
