/** Any number of workers over one job table: claims, attempts, finishes that may come late, lost
    claims and recovered leases, in any order. */
module WorkerSystem {
  import opened Basics
  import opened Counting
  import opened Ordering
  import opened Jobs

  /** One claim: the attempt number it was given is the attempts it read plus one. */
  datatype Claim = Claim(number: nat, owner: Id, until: Time)

  /** A job with the history of its claims: those still open, those whose attempt was recorded, the
      attempt rows (number to worker), the numbers that finished retryable, how often the lease ran
      out, and when an execution first failed with a retry to come. */
  datatype Track = Track(job: Job, open: set<Claim>, started: set<Claim>, rows: map<int, Id>, retried: set<nat>,
                         expiries: nat, firstFailure: Option<Time>)

  datatype System = System(clock: Time, tracks: map<Id, Track>)

  datatype Step =
    | Advance(to: Time)
    | Insert(id: Id, kind: string, maxAttempts: nat, availableAt: Time)
    | RecoverExpired
    | ClaimBatch(owner: Id, lease: Time, batch: nat)
    | RecordAttempt(id: Id, claim: Claim)
    | Finish(id: Id, claim: Claim, handling: Handling)
    | Lose(id: Id, claim: Claim)

  function JobsOf(sys: System): Table {
    map id | id in sys.tracks :: sys.tracks[id].job
  }

  function RowsOf(sys: System): AttemptRows {
    map id | id in sys.tracks :: sys.tracks[id].rows
  }

  function NewTrack(kind: string, maxAttempts: nat, availableAt: Time, now: Time): Track {
    Track(Job(kind, Pending, 0, maxAttempts, availableAt, None, None, "", 1, now), {}, {}, map[], {}, 0, None)
  }

  // ---- steps on one job ----------------------------------------------------------------------

  function RecoverTrack(t: Track, now: Time): Track {
    t.(job := Recovered(t.job, now), expiries := t.expiries + Bit(Expired(t.job, now)))
  }

  /** A claim of a running job takes over a lease that ran out. */
  function ClaimTrack(t: Track, owner: Id, until: Time, now: Time): Track {
    t.(job := Leased(t.job, owner, until, now),
       open := t.open + {Claim(t.job.attempts + 1, owner, until)},
       expiries := t.expiries + Bit(Expired(t.job, now)))
  }

  /** Each claim records its attempt at most once; a second row with its number would be refused. */
  function RecordTrack(t: Track, c: Claim): Track {
    if c in t.open && c !in t.started then
      t.(started := t.started + {c}, rows := if c.number in t.rows then t.rows else t.rows[c.number := c.owner])
    else t
  }

  function FinishTrack(t: Track, c: Claim, handling: Handling, now: Time): Track {
    if c !in t.open || c.number == 0 then t
    else
      var outcome := OutcomeOf(handling, c.number - 1, t.job.maxAttempts);
      t.(job := Finished(t.job, c.number - 1, outcome, CauseOf(handling, t.job.kind), now),
         open := t.open - {c},
         retried := if outcome.Retryable? then t.retried + {c.number} else t.retried,
         firstFailure := if outcome.Retryable? && t.firstFailure.None? then Some(now) else t.firstFailure)
  }

  ghost function Next(sys: System, step: Step): System {
    match step
    case Advance(to) => if to < sys.clock then sys else sys.(clock := to)
    case Insert(id, kind, maxAttempts, availableAt) =>
      if id in sys.tracks || maxAttempts == 0 then sys
      else sys.(tracks := sys.tracks[id := NewTrack(kind, maxAttempts, availableAt, sys.clock)])
    case RecoverExpired =>
      sys.(tracks := map id | id in sys.tracks :: RecoverTrack(sys.tracks[id], sys.clock))
    case ClaimBatch(owner, lease, batch) =>
      sys.(tracks := map id | id in sys.tracks ::
        if IsPicked(JobsOf(sys), sys.clock, batch, id) then ClaimTrack(sys.tracks[id], owner, sys.clock + lease, sys.clock)
        else sys.tracks[id])
    case RecordAttempt(id, c) =>
      if id !in sys.tracks then sys else sys.(tracks := sys.tracks[id := RecordTrack(sys.tracks[id], c)])
    case Finish(id, c, handling) =>
      if id !in sys.tracks then sys else sys.(tracks := sys.tracks[id := FinishTrack(sys.tracks[id], c, handling, sys.clock)])
    case Lose(id, c) =>
      if id !in sys.tracks then sys
      else sys.(tracks := sys.tracks[id := sys.tracks[id].(open := sys.tracks[id].open - {c})])
  }

  ghost function Run(sys: System, steps: seq<Step>): System {
    if steps == [] then sys else Next(Run(sys, steps[..|steps| - 1]), steps[|steps| - 1])
  }

  function Start(time: Time): System {
    System(time, map[])
  }

  // ---- the job table follows the repository's statements -------------------------------------

  lemma RecoverFollowsRepository(sys: System)
    ensures JobsOf(Next(sys, RecoverExpired)) == RecoverTable(JobsOf(sys), sys.clock)
    ensures RowsOf(Next(sys, RecoverExpired)) == RowsOf(sys)
  {
  }

  lemma ClaimFollowsRepository(sys: System, owner: Id, lease: Time, batch: nat)
    ensures JobsOf(Next(sys, ClaimBatch(owner, lease, batch))) == ClaimTable(JobsOf(sys), owner, sys.clock, lease, batch)
    ensures RowsOf(Next(sys, ClaimBatch(owner, lease, batch))) == RowsOf(sys)
  {
    var after := Next(sys, ClaimBatch(owner, lease, batch));
    var jobs := JobsOf(sys);
    assert after.tracks.Keys == sys.tracks.Keys == jobs.Keys;
    forall id | id in jobs
      ensures after.tracks[id].rows == sys.tracks[id].rows
      ensures after.tracks[id].job
              == if IsPicked(jobs, sys.clock, batch, id) then Leased(jobs[id], owner, sys.clock + lease, sys.clock) else jobs[id]
    {
    }
  }

  lemma RecordFollowsRepository(sys: System, id: Id, c: Claim)
    requires id in sys.tracks && c in sys.tracks[id].open - sys.tracks[id].started
    ensures JobsOf(Next(sys, RecordAttempt(id, c))) == JobsOf(sys)
    ensures RowsOf(Next(sys, RecordAttempt(id, c))) == RecordRow(RowsOf(sys), id, c.number, c.owner)
  {
  }

  lemma FinishFollowsRepository(sys: System, id: Id, c: Claim, handling: Handling)
    requires id in sys.tracks && c in sys.tracks[id].open && c.number > 0
    ensures var job := sys.tracks[id].job;
            JobsOf(Next(sys, Finish(id, c, handling)))
            == FinishTable(JobsOf(sys), Claimed(id, job.kind, c.number - 1, job.maxAttempts),
                           OutcomeOf(handling, c.number - 1, job.maxAttempts), CauseOf(handling, job.kind), sys.clock)
    ensures RowsOf(Next(sys, Finish(id, c, handling))) == RowsOf(sys)
  {
  }

  // ---- what every run keeps ------------------------------------------------------------------

  ghost predicate OpenSound(t: Track) {
    && (forall c :: c in t.open ==> 1 <= c.number <= t.job.attempts && c.number !in t.retried)
    && (forall c, d :: c in t.open && d in t.open && c.number == d.number ==> c == d)
  }

  ghost predicate RetriedSound(t: Track) {
    forall n :: n in t.retried ==> 1 <= n < t.job.maxAttempts && n <= t.job.attempts
  }

  ghost predicate RowsSound(t: Track) {
    && (forall n :: n in t.rows ==> 1 <= n <= t.job.attempts)
    && (forall c :: c in t.open && c.number in t.rows ==> c in t.started)
    && (forall c :: c in t.started ==> c.number <= t.job.attempts)
  }

  /** Every claim beyond the first was made possible by a retryable finish or by a lease that ran out. */
  ghost predicate ClaimsPaid(t: Track) {
    t.job.attempts + Bit(t.job.status.Waiting()) <= 1 + |t.retried| + t.expiries
  }

  ghost predicate LeaseMatchesStatus(t: Track) {
    (t.job.leaseOwner.Some? <==> t.job.status.Running?) && (t.job.leaseUntil.Some? <==> t.job.status.Running?)
  }

  /** The least distance between the first failure and the call after the n-th. */
  function Spacing(n: nat): Time {
    if n == 0 then 0 else Spacing(n - 1) + Backoff(n - 1)
  }

  /** While no lease of the job ran out, only its latest claim can be open, and calls keep their distance. */
  ghost predicate Spaced(t: Track, clock: Time) {
    t.expiries == 0 ==>
      && (forall c :: c in t.open ==> t.job.status.Running? && c.number == t.job.attempts)
      && (match t.firstFailure
          case None => t.job.attempts <= 1 && (t.job.status.Waiting() ==> t.job.attempts == 0)
          case Some(f) =>
            && t.job.attempts >= 1
            && (t.job.status.Waiting() ==> t.job.availableAt >= f + Spacing(t.job.attempts))
            && (t.job.status.Running? ==> clock >= f + Spacing(t.job.attempts - 1)))
  }

  ghost predicate TrackInvariant(t: Track, clock: Time) {
    && 1 <= t.job.maxAttempts && OpenSound(t) && RetriedSound(t) && RowsSound(t)
    && ClaimsPaid(t) && LeaseMatchesStatus(t) && Spaced(t, clock)
  }

  ghost predicate Invariant(sys: System) {
    forall id {:trigger TrackInvariant(sys.tracks[id], sys.clock)} :: id in sys.tracks ==> TrackInvariant(sys.tracks[id], sys.clock)
  }

  lemma RecoverKeeps(t: Track, now: Time)
    requires TrackInvariant(t, now)
    ensures TrackInvariant(RecoverTrack(t, now), now)
  {
  }

  lemma ClaimKeeps(t: Track, owner: Id, until: Time, now: Time)
    requires TrackInvariant(t, now) && Claimable(t.job, now)
    ensures TrackInvariant(ClaimTrack(t, owner, until, now), now)
  {
  }

  lemma FinishKeeps(t: Track, c: Claim, handling: Handling, now: Time)
    requires TrackInvariant(t, now)
    ensures TrackInvariant(FinishTrack(t, c, handling, now), now)
  {
  }

  lemma SweepKeeps(sys: System, step: Step)
    requires Invariant(sys) && step.RecoverExpired?
    ensures Invariant(Next(sys, step))
  {
    var after := Next(sys, step);
    forall id | id in after.tracks
      ensures TrackInvariant(after.tracks[id], after.clock)
    {
      assert TrackInvariant(sys.tracks[id], sys.clock);
      RecoverKeeps(sys.tracks[id], sys.clock);
    }
  }

  lemma ClaimBatchKeeps(sys: System, step: Step)
    requires Invariant(sys) && step.ClaimBatch?
    ensures Invariant(Next(sys, step))
  {
    var after := Next(sys, step);
    forall id | id in after.tracks
      ensures TrackInvariant(after.tracks[id], after.clock)
    {
      assert TrackInvariant(sys.tracks[id], sys.clock);
      if IsPicked(JobsOf(sys), sys.clock, step.batch, id) {
        PickedIsClaimable(JobsOf(sys), sys.clock, step.batch, id);
        ClaimKeeps(sys.tracks[id], step.owner, sys.clock + step.lease, sys.clock);
      }
    }
  }

  lemma RowStepKeeps(sys: System, step: Step)
    requires Invariant(sys) && !step.RecoverExpired? && !step.ClaimBatch?
    ensures Invariant(Next(sys, step))
  {
    var after := Next(sys, step);
    forall id | id in after.tracks
      ensures TrackInvariant(after.tracks[id], after.clock)
    {
      if id in sys.tracks {
        assert TrackInvariant(sys.tracks[id], sys.clock);
        if step.Finish? && step.id == id {
          FinishKeeps(sys.tracks[id], step.claim, step.handling, sys.clock);
        }
      }
    }
  }

  lemma NextKeeps(sys: System, step: Step)
    requires Invariant(sys)
    ensures Invariant(Next(sys, step))
  {
    match step
    case RecoverExpired => SweepKeeps(sys, step);
    case ClaimBatch(_, _, _) => ClaimBatchKeeps(sys, step);
    case _ => RowStepKeeps(sys, step);
  }

  lemma {:induction false} RunInvariant(sys: System, steps: seq<Step>)
    requires Invariant(sys)
    ensures Invariant(Run(sys, steps))
  {
    if steps != [] {
      RunInvariant(sys, steps[..|steps| - 1]);
      NextKeeps(Run(sys, steps[..|steps| - 1]), steps[|steps| - 1]);
    }
  }

  ghost predicate Reached(start: Time, steps: seq<Step>, id: Id, t: Track) {
    id in Run(Start(start), steps).tracks && t == Run(Start(start), steps).tracks[id]
  }

  lemma ReachedInvariant(start: Time, steps: seq<Step>, id: Id, t: Track)
    requires Reached(start, steps, id, t)
    ensures TrackInvariant(t, Run(Start(start), steps).clock)
  {
    RunInvariant(Start(start), steps);
  }

  // ---- attempts ------------------------------------------------------------------------------

  lemma {:induction false} BoundedNumbers(s: set<nat>, max: nat)
    requires 1 <= max && forall n :: n in s ==> 1 <= n < max
    ensures |s| <= max - 1
  {
    if max == 1 {
      assert s == {};
    } else {
      BoundedNumbers(s - {max - 1}, max - 1);
      SetSizeWithout(s, max - 1);
    }
  }

  /** With any number of workers, lost claims and late finishes, a job is attempted at most
      max_attempts times more than its lease ran out. */
  lemma AttemptsBounded(start: Time, steps: seq<Step>, id: Id, t: Track)
    requires Reached(start, steps, id, t)
    ensures t.job.attempts <= t.job.maxAttempts + t.expiries
    ensures t.job.status.Waiting() ==> t.job.attempts < t.job.maxAttempts + t.expiries
  {
    ReachedInvariant(start, steps, id, t);
    BoundedNumbers(t.retried, t.job.maxAttempts);
  }

  /** No attempt is ever refused for its number: when a claim records its attempt, its
      number is not in the table yet. */
  lemma AttemptNumbersAreNew(start: Time, steps: seq<Step>, id: Id, t: Track, c: Claim)
    requires Reached(start, steps, id, t) && c in t.open - t.started
    ensures c.number !in t.rows && RecordTrack(t, c).rows == t.rows[c.number := c.owner]
  {
    ReachedInvariant(start, steps, id, t);
  }

  /** lease_owner and lease_until are set exactly while a job is running. */
  lemma LeaseOnlyWhileRunning(start: Time, steps: seq<Step>, id: Id, t: Track)
    requires Reached(start, steps, id, t)
    ensures t.job.leaseOwner.Some? <==> t.job.status.Running?
    ensures t.job.leaseUntil.Some? <==> t.job.status.Running?
  {
    ReachedInvariant(start, steps, id, t);
  }

  // ---- spaced retries ------------------------------------------------------------------------

  /** The spacing after n failures is 2^n seconds up to nine failures and grows by 300 seconds from there. */
  lemma {:induction false} SpacingValue(n: nat)
    ensures 1 <= n <= 9 ==> Spacing(n) == Pow2(n) * SECOND
    ensures n >= 9 ==> Spacing(n) == (512 + 300 * (n - 9)) * SECOND
  {
    if n > 0 {
      SpacingValue(n - 1);
      BackoffValues(n - 1);
    }
    assert Pow2(9) == 512 by {
      assert Pow2(3) == 8 && Pow2(6) == 64;
    }
  }

  /** As long as no lease of the job ran out, its handler is called at most max_attempts times, and
      the call after the n-th failure starts no sooner than Spacing(n) after the first. */
  lemma CallsAreSpaced(start: Time, steps: seq<Step>, id: Id, t: Track, c: Claim)
    requires Reached(start, steps, id, t) && t.expiries == 0 && c in t.open
    ensures c.number <= t.job.maxAttempts && t.open == {c}
    ensures var n := c.number - 1;
            n >= 1 ==> t.firstFailure.Some? && Run(Start(start), steps).clock >= t.firstFailure.value + Spacing(n)
  {
    ReachedInvariant(start, steps, id, t);
    AttemptsBounded(start, steps, id, t);
  }
}
