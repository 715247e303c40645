/** Lease exclusivity: when two workers can hold a live claim of one job, and when they cannot. */
module Leases {
  import opened Basics
  import opened Counting
  import opened Ordering
  import opened Jobs
  import opened WorkerSystem

  /** Claimed, not finished, and the lease has not run out. */
  predicate Live(t: Track, c: Claim, clock: Time) {
    c in t.open && clock < c.until
  }

  /** The row names the live claim: its owner, its expiry and its attempt number. */
  predicate HeldBy(job: Job, c: Claim) {
    job.status.Running? && job.leaseOwner == Some(c.owner) && job.leaseUntil == Some(c.until) && job.attempts == c.number
  }

  ghost predicate Held(t: Track, clock: Time) {
    forall c :: Live(t, c, clock) ==> HeldBy(t.job, c)
  }

  ghost predicate AllHeld(sys: System) {
    forall id {:trigger Held(sys.tracks[id], sys.clock)} :: id in sys.tracks ==> Held(sys.tracks[id], sys.clock)
  }

  /** A Finish arrives before the lease of its own claim runs out. */
  predicate Timely(sys: System, step: Step) {
    step.Finish? ==> sys.clock < step.claim.until
  }

  ghost predicate AllTimely(sys: System, steps: seq<Step>) {
    forall i :: 0 <= i < |steps| ==> Timely(Run(sys, steps[..i]), steps[i])
  }

  lemma ClaimKeepsHeld(t: Track, owner: Id, until: Time, now: Time)
    requires TrackInvariant(t, now) && Held(t, now) && Claimable(t.job, now)
    ensures Held(ClaimTrack(t, owner, until, now), now)
  {
    var after := ClaimTrack(t, owner, until, now);
    forall c | Live(after, c, now)
      ensures HeldBy(after.job, c)
    {
      assert Live(t, c, now) ==> HeldBy(t.job, c);
    }
  }

  /** A Finish leaves the row with its live claim exactly when no other claim of the job is live. */
  lemma FinishKeepsHeldExactlyWhen(t: Track, c: Claim, handling: Handling, now: Time)
    requires TrackInvariant(t, now) && Held(t, now) && c in t.open
    ensures Held(FinishTrack(t, c, handling, now), now) <==> forall d :: Live(t, d, now) ==> d == c
  {
    var after := FinishTrack(t, c, handling, now);
    forall d | Live(t, d, now) && d != c
      ensures !Held(after, now)
    {
      assert Live(after, d, now) && !HeldBy(after.job, d);
    }
    forall d | Live(after, d, now)
      ensures Live(t, d, now) && d != c
    {
    }
  }

  /** What a caller can see in the row: no other claim is live when the row still carries the caller's
      own attempt number, or is not running under a lease that holds. RowCannotTell shows why no test
      of the row alone is exact. */
  lemma OwnLeaseIsSafe(t: Track, c: Claim, now: Time)
    requires TrackInvariant(t, now) && Held(t, now) && c in t.open
    requires t.job.attempts == c.number || t.job.leaseUntil.None? || t.job.leaseUntil.value <= now
    ensures forall d :: Live(t, d, now) ==> d == c
  {
  }

  /** Fewer open claims and a later clock leave fewer live claims. */
  lemma HeldShrinks(t: Track, u: Track, now: Time, later: Time)
    requires Held(t, now) && now <= later && u.open <= t.open
    requires u.job == t.job || forall c :: !Live(t, c, now)
    ensures Held(u, later)
  {
    forall c | Live(u, c, later)
      ensures HeldBy(u.job, c)
    {
      assert Live(t, c, now);
    }
  }

  lemma RecoverKeepsHeld(t: Track, now: Time)
    requires Held(t, now)
    ensures Held(RecoverTrack(t, now), now)
  {
    if Expired(t.job, now) {
      forall c
        ensures !Live(t, c, now)
      {
        assert Live(t, c, now) ==> HeldBy(t.job, c);
      }
    }
    HeldShrinks(t, RecoverTrack(t, now), now, now);
  }

  lemma TimelyFinishKeepsHeld(t: Track, c: Claim, handling: Handling, now: Time)
    requires TrackInvariant(t, now) && Held(t, now) && now < c.until
    ensures Held(FinishTrack(t, c, handling, now), now)
  {
    if c in t.open {
      assert Live(t, c, now) && HeldBy(t.job, c);
      OwnLeaseIsSafe(t, c, now);
      FinishKeepsHeldExactlyWhen(t, c, handling, now);
    }
  }

  lemma StepKeepsHeld(sys: System, step: Step, id: Id)
    requires Invariant(sys) && AllHeld(sys) && Timely(sys, step) && id in Next(sys, step).tracks
    ensures Held(Next(sys, step).tracks[id], Next(sys, step).clock)
  {
    if id in sys.tracks {
      var t := sys.tracks[id];
      assert TrackInvariant(t, sys.clock) && Held(t, sys.clock);
      match step
      case ClaimBatch(owner, lease, batch) =>
        if IsPicked(JobsOf(sys), sys.clock, batch, id) {
          PickedIsClaimable(JobsOf(sys), sys.clock, batch, id);
          ClaimKeepsHeld(t, owner, sys.clock + lease, sys.clock);
        }
      case Finish(_, c, handling) => TimelyFinishKeepsHeld(t, c, handling, sys.clock);
      case RecoverExpired => RecoverKeepsHeld(t, sys.clock);
      case _ => HeldShrinks(t, Next(sys, step).tracks[id], sys.clock, Next(sys, step).clock);
    }
  }

  lemma {:induction false} TimelyRunHeld(sys: System, steps: seq<Step>)
    requires Invariant(sys) && AllHeld(sys) && AllTimely(sys, steps)
    ensures AllHeld(Run(sys, steps))
  {
    if steps != [] {
      var n := |steps| - 1;
      forall i | 0 <= i < n
        ensures Timely(Run(sys, steps[..n][..i]), steps[..n][i])
      {
        assert steps[..n][..i] == steps[..i];
      }
      TimelyRunHeld(sys, steps[..n]);
      RunInvariant(sys, steps[..n]);
      forall id | id in Run(sys, steps).tracks
        ensures Held(Run(sys, steps).tracks[id], Run(sys, steps).clock)
      {
        StepKeepsHeld(Run(sys, steps[..n]), steps[n], id);
      }
    }
  }

  /** If every Finish arrives in time, no job ever has two live claims, and the row names the one it has. */
  lemma LeasesAreExclusive(start: Time, steps: seq<Step>, id: Id, c: Claim, d: Claim)
    requires AllTimely(Start(start), steps) && id in Run(Start(start), steps).tracks
    requires Live(Run(Start(start), steps).tracks[id], c, Run(Start(start), steps).clock)
    requires Live(Run(Start(start), steps).tracks[id], d, Run(Start(start), steps).clock)
    ensures c == d && HeldBy(Run(Start(start), steps).tracks[id].job, c)
  {
    TimelyRunHeld(Start(start), steps);
    ReachedInvariant(start, steps, id, Run(Start(start), steps).tracks[id]);
    assert Held(Run(Start(start), steps).tracks[id], Run(Start(start), steps).clock);
  }

  // ---- what one late Finish does -------------------------------------------------------------

  const JOB := Id([106])
  const FIRST := Id([1])
  const SECOND_WORKER := Id([2])
  const THIRD := Id([3])

  const FIRST_CLAIM := Claim(1, FIRST, 10 * SECOND)
  const SECOND_CLAIM := Claim(2, SECOND_WORKER, 20 * SECOND)
  const THIRD_CLAIM := Claim(3, THIRD, 22 * SECOND)

  /** With one job in the table, a claim takes it when it is claimable. */
  lemma OnlyJobIsPicked(jobs: Table, now: Time, batch: nat, id: Id)
    requires jobs.Keys == {id} && Claimable(jobs[id], now) && batch >= 1
    ensures IsPicked(jobs, now, batch, id)
  {
    var key := KeyOf(jobs, id);
    assert Queue(jobs, now) == {key};
    SortContents(Ascending, {key}, key);
    assert Top(Ascending, {key}, batch) == Sort(Ascending, {key});
  }

  lemma ClaimOnlyJob(sys: System, owner: Id, lease: Time, batch: nat, id: Id, t: Track)
    requires sys.tracks == map[id := t] && Claimable(t.job, sys.clock) && batch >= 1
    ensures Next(sys, ClaimBatch(owner, lease, batch)) == System(sys.clock, map[id := ClaimTrack(t, owner, sys.clock + lease, sys.clock)])
  {
    OnlyJobIsPicked(JobsOf(sys), sys.clock, batch, id);
  }

  lemma RunStep(sys: System, steps: seq<Step>, step: Step)
    ensures Run(sys, steps + [step]) == Next(Run(sys, steps), step)
  {
    assert (steps + [step])[..|steps|] == steps;
  }

  /** The first worker claims the job for ten seconds and outlives its lease. */
  lemma FirstWorkerOverruns() returns (steps: seq<Step>, t: Track)
    ensures Run(Start(0), steps) == System(10 * SECOND, map[JOB := t])
    ensures t == ClaimTrack(NewTrack("forecast", 5, 0, 0), FIRST, 10 * SECOND, 0)
  {
    var inserted := NewTrack("forecast", 5, 0, 0);
    var insert, claim, wait := Insert(JOB, "forecast", 5, 0), ClaimBatch(FIRST, 10 * SECOND, 1), Advance(10 * SECOND);
    RunStep(Start(0), [], insert);
    RunStep(Start(0), [] + [insert], claim);
    RunStep(Start(0), [] + [insert] + [claim], wait);
    ClaimOnlyJob(System(0, map[JOB := inserted]), FIRST, 10 * SECOND, 1, JOB, inserted);
    t := ClaimTrack(inserted, FIRST, 10 * SECOND, 0);
    steps := [] + [insert] + [claim] + [wait];
  }

  /** The row alone cannot tell when a finish is harmless, so the test above only goes one way: in two
      runs the row is the same, and the first worker's finish is harmless in the run where the second
      worker's claim was lost without a trace, and harmful where it was not. */
  lemma RowCannotTell() returns (lostSteps: seq<Step>, lost: Track, keptSteps: seq<Step>, kept: Track)
    ensures Run(Start(0), lostSteps) == System(10 * SECOND, map[JOB := lost])
    ensures Run(Start(0), keptSteps) == System(10 * SECOND, map[JOB := kept])
    ensures lost.job == kept.job && FIRST_CLAIM in lost.open && FIRST_CLAIM in kept.open
    ensures Held(FinishTrack(lost, FIRST_CLAIM, Returns, 10 * SECOND), 10 * SECOND)
    ensures !Held(FinishTrack(kept, FIRST_CLAIM, Returns, 10 * SECOND), 10 * SECOND)
  {
    var begun, t := FirstWorkerOverruns();
    var claim, lose := ClaimBatch(SECOND_WORKER, 10 * SECOND, 1), Lose(JOB, SECOND_CLAIM);
    RunStep(Start(0), begun, claim);
    RunStep(Start(0), begun + [claim], lose);
    ClaimOnlyJob(System(10 * SECOND, map[JOB := t]), SECOND_WORKER, 10 * SECOND, 1, JOB, t);
    kept := ClaimTrack(t, SECOND_WORKER, 20 * SECOND, 10 * SECOND);
    lost := kept.(open := kept.open - {SECOND_CLAIM});
    keptSteps, lostSteps := begun + [claim], begun + [claim] + [lose];
    var after := FinishTrack(kept, FIRST_CLAIM, Returns, 10 * SECOND);
    assert Live(after, SECOND_CLAIM, 10 * SECOND) && !HeldBy(after.job, SECOND_CLAIM);
  }

  /** A second worker takes the job over, then the first one reports its failure. */
  lemma FirstWorkerFinishesLate() returns (steps: seq<Step>, t: Track)
    ensures Run(Start(0), steps) == System(10 * SECOND, map[JOB := t])
    ensures t.job.status.RetryWait? && t.job.availableAt == 12 * SECOND && t.job.attempts == 2 && SECOND_CLAIM in t.open
  {
    var begun, t1 := FirstWorkerOverruns();
    var claim, finish := ClaimBatch(SECOND_WORKER, 10 * SECOND, 1), Finish(JOB, FIRST_CLAIM, Fails("timeout"));
    RunStep(Start(0), begun, claim);
    RunStep(Start(0), begun + [claim], finish);
    ClaimOnlyJob(System(10 * SECOND, map[JOB := t1]), SECOND_WORKER, 10 * SECOND, 1, JOB, t1);
    var t2 := ClaimTrack(t1, SECOND_WORKER, 20 * SECOND, 10 * SECOND);
    BackoffValues(0);
    t := FinishTrack(t2, FIRST_CLAIM, Fails("timeout"), 10 * SECOND);
    steps := begun + [claim] + [finish];
  }

  /** The late Finish freed the row under the second worker's live claim, so a third worker claims the
      job as well: two live claims. */
  lemma LateFinishBreaksExclusivity() returns (steps: seq<Step>, t: Track)
    ensures Run(Start(0), steps) == System(12 * SECOND, map[JOB := t])
    ensures Live(t, SECOND_CLAIM, 12 * SECOND) && Live(t, THIRD_CLAIM, 12 * SECOND)
  {
    var begun, before := FirstWorkerFinishesLate();
    var wait, claim := Advance(12 * SECOND), ClaimBatch(THIRD, 10 * SECOND, 1);
    RunStep(Start(0), begun, wait);
    RunStep(Start(0), begun + [wait], claim);
    ClaimOnlyJob(System(12 * SECOND, map[JOB := before]), THIRD, 10 * SECOND, 1, JOB, before);
    t := ClaimTrack(before, THIRD, 22 * SECOND, 12 * SECOND);
    steps := begun + [wait] + [claim];
  }
}
