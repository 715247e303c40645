/** What the job statements leave, column by column, and how a job's status follows from the
    executions that ended. */
module JobOutcomes {
  import opened Basics
  import opened Counting
  import opened Ordering
  import opened Rows
  import opened Text
  import opened Jobs
  import opened WorkerSystem
  import W = Worker

  // ---- claiming ------------------------------------------------------------------------------

  /** Waiting, or running under a lease that ran out, and available by now. */
  predicate Due(job: Job, now: Time) {
    && job.availableAt <= now
    && (job.status == Pending || job.status == RetryWait
        || (job.status == Running && job.leaseUntil.Some? && job.leaseUntil.value <= now))
  }

  /** Available sooner, or at the same time with the smaller id. */
  ghost predicate Sooner(jobs: Table, a: Id, b: Id)
    requires a in jobs && b in jobs
  {
    jobs[a].availableAt < jobs[b].availableAt || (jobs[a].availableAt == jobs[b].availableAt && SmallerId(a, b))
  }

  ghost function DueBefore(jobs: Table, id: Id, now: Time): set<Id>
    requires id in jobs
  {
    set x | x in jobs && Due(jobs[x], now) && Sooner(jobs, x, id)
  }

  function TimesOf(jobs: Table): map<Id, Time> {
    map id | id in jobs :: jobs[id].availableAt
  }

  lemma AheadIsDueBefore(jobs: Table, now: Time, id: Id)
    requires id in jobs
    ensures |Ahead(Ascending, Queue(jobs, now), KeyOf(jobs, id))| == |DueBefore(jobs, id, now)|
  {
    var keys, ids := Ahead(Ascending, Queue(jobs, now), KeyOf(jobs, id)), DueBefore(jobs, id, now);
    forall k | k in keys
      ensures k.id in ids && k.id in jobs && k == KeyOf(jobs, k.id)
    {
      PrecedesExactlyWhen(k, KeyOf(jobs, id));
    }
    forall x | x in ids
      ensures x in jobs && KeyOf(jobs, x) in keys
    {
      assert Claimable(jobs[x], now);
      PrecedesExactlyWhen(KeyOf(jobs, x), KeyOf(jobs, id));
    }
    SameSize(keys, ids, TimesOf(jobs));
  }

  /** A claim takes a job exactly when it is due and fewer due jobs than the batch holds come sooner. */
  lemma PickedExactlyWhen(jobs: Table, now: Time, batch: nat, id: Id)
    ensures IsPicked(jobs, now, batch, id) <==> id in jobs && Due(jobs[id], now) && |DueBefore(jobs, id, now)| < batch
  {
    if id in jobs {
      TopExactlyWhen(Ascending, Queue(jobs, now), batch, KeyOf(jobs, id));
      AheadIsDueBefore(jobs, now, id);
      assert KeyOf(jobs, id) in Queue(jobs, now) <==> Due(jobs[id], now);
    }
  }

  /** The rows of a claim: those taken get the lease and one more attempt, all others stay. */
  lemma ClaimOutcome(jobs: Table, owner: Id, now: Time, lease: Time, batch: nat, id: Id)
    requires id in jobs
    ensures ClaimTable(jobs, owner, now, lease, batch).Keys == jobs.Keys
    ensures var row := ClaimTable(jobs, owner, now, lease, batch)[id];
            row == if Due(jobs[id], now) && |DueBefore(jobs, id, now)| < batch
                   then jobs[id].(status := Running, leaseOwner := Some(owner), leaseUntil := Some(now + lease),
                                  attempts := jobs[id].attempts + 1, version := jobs[id].version + 1, updatedAt := now)
                   else jobs[id]
  {
    PickedExactlyWhen(jobs, now, batch, id);
  }

  /** The worker is handed each job taken once, soonest first, with the attempts it had before. */
  lemma BatchOutcome(jobs: Table, now: Time, batch: nat)
    ensures var out := W.BatchOf(jobs, now, batch);
            && (forall i :: 0 <= i < |out| ==>
                  && out[i].id in jobs && IsPicked(jobs, now, batch, out[i].id)
                  && out[i] == Claimed(out[i].id, jobs[out[i].id].kind, jobs[out[i].id].attempts, jobs[out[i].id].maxAttempts))
            && (forall i, j :: 0 <= i < j < |out| ==> Sooner(jobs, out[i].id, out[j].id))
            && (forall id :: IsPicked(jobs, now, batch, id) ==> exists i :: 0 <= i < |out| && out[i].id == id)
  {
    var out, keys := W.BatchOf(jobs, now, batch), Picked(jobs, now, batch);
    W.PickedRows(jobs, now, batch);
    forall i | 0 <= i < |out|
      ensures out[i].id == keys[i].id && keys[i] in keys && keys[i] == KeyOf(jobs, keys[i].id)
    {
    }
    forall i, j | 0 <= i < j < |out|
      ensures Sooner(jobs, out[i].id, out[j].id)
    {
      PrecedesExactlyWhen(keys[i], keys[j]);
    }
    forall id | IsPicked(jobs, now, batch, id)
      ensures exists i :: 0 <= i < |out| && out[i].id == id
    {
      var i :| 0 <= i < |keys| && keys[i] == KeyOf(jobs, id);
      assert out[i].id == id;
    }
  }

  // ---- recovery ------------------------------------------------------------------------------

  /** Recovery returns exactly the running jobs whose lease ran out to waiting, available at once. */
  lemma RecoverOutcome(jobs: Table, now: Time, id: Id)
    requires id in jobs
    ensures RecoverTable(jobs, now).Keys == jobs.Keys
    ensures var job := jobs[id];
            RecoverTable(jobs, now)[id]
            == if job.status == Running && job.leaseUntil.Some? && job.leaseUntil.value <= now
               then job.(status := RetryWait, leaseOwner := None, leaseUntil := None, availableAt := now, updatedAt := now)
               else job
  {
  }

  // ---- how a job ended -----------------------------------------------------------------------

  /** The end of an execution: what the worker found and the attempt number of its claim. */
  datatype Ending = Ending(handling: Handling, number: nat)

  /** The last execution of the job that reported its end, in any run. */
  ghost function LastEnding(sys: System, steps: seq<Step>, id: Id): Option<Ending> {
    if steps == [] then None
    else
      var before, step := steps[..|steps| - 1], steps[|steps| - 1];
      if step.Finish? && step.id == id && id in Run(sys, before).tracks && step.claim in Run(sys, before).tracks[id].open
         && step.claim.number > 0 then
        Some(Ending(step.handling, step.claim.number))
      else LastEnding(sys, before, id)
  }

  /** Nothing handles the job, or it failed in its last permitted attempt. */
  predicate GivesUp(e: Ending, maxAttempts: nat) {
    e.handling == NoHandler || (e.handling.Fails? && e.number >= maxAttempts)
  }

  ghost predicate EndedSo(job: Job, last: Option<Ending>) {
    && (job.status == Succeeded <==> last.Some? && last.value.handling == Returns)
    && (job.status == PermanentlyFailed <==> last.Some? && GivesUp(last.value, job.maxAttempts))
    && job.status != JobCancelled
  }

  lemma StepEnds(sys: System, step: Step, id: Id, last: Option<Ending>)
    requires id in sys.tracks && EndedSo(sys.tracks[id].job, last)
    requires !(step.Finish? && step.id == id)
    ensures id in Next(sys, step).tracks && EndedSo(Next(sys, step).tracks[id].job, last)
  {
    if step.ClaimBatch? && IsPicked(JobsOf(sys), sys.clock, step.batch, id) {
      PickedIsClaimable(JobsOf(sys), sys.clock, step.batch, id);
    }
  }

  lemma FinishEnds(t: Track, c: Claim, handling: Handling, now: Time, last: Option<Ending>)
    requires EndedSo(t.job, last)
    ensures EndedSo(FinishTrack(t, c, handling, now).job,
                    if c in t.open && c.number > 0 then Some(Ending(handling, c.number)) else last)
  {
  }

  lemma {:induction false} JobsEndAsReported(start: Time, steps: seq<Step>, id: Id)
    ensures id !in Run(Start(start), steps).tracks ==> LastEnding(Start(start), steps, id) == None
    ensures id in Run(Start(start), steps).tracks ==>
              EndedSo(Run(Start(start), steps).tracks[id].job, LastEnding(Start(start), steps, id))
  {
    if steps != [] {
      var before, step := steps[..|steps| - 1], steps[|steps| - 1];
      var sys := Run(Start(start), before);
      JobsEndAsReported(start, before, id);
      if id in sys.tracks {
        if step.Finish? && step.id == id {
          FinishEnds(sys.tracks[id], step.claim, step.handling, sys.clock, LastEnding(Start(start), before, id));
        } else {
          StepEnds(sys, step, id, LastEnding(Start(start), before, id));
        }
      }
    }
  }

  /** With any number of workers and whatever comes late: a job is succeeded exactly when the last
      execution that ended returned, and permanently failed exactly when that one found no handler or
      failed in an attempt numbered max_attempts or more; otherwise it waits or runs. */
  lemma StatusTellsLastEnding(start: Time, steps: seq<Step>, id: Id, t: Track)
    requires Reached(start, steps, id, t)
    ensures EndedSo(t.job, LastEnding(Start(start), steps, id))
  {
    JobsEndAsReported(start, steps, id);
  }
}
