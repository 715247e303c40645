/** No starvation: a waiting job is claimed after a bounded number of claim batches. */
module Starvation {
  import opened Basics
  import opened Counting
  import opened Ordering
  import opened Jobs
  import opened WorkerSystem

  /** Waiting and due before now. A worker may still be executing an earlier claim of the job whose
      lease ran out. */
  predicate Waits(sys: System, id: Id) {
    id in sys.tracks && sys.tracks[id].job.status.Waiting() && sys.tracks[id].job.availableAt < sys.clock
  }

  /** The waiting jobs ordered before a job. */
  ghost function AheadOf(sys: System, id: Id): set<Key>
    requires id in sys.tracks
  {
    set other | other in sys.tracks && sys.tracks[other].job.status.Waiting()
                && Precedes(Ascending, KeyOf(JobsOf(sys), other), KeyOf(JobsOf(sys), id)) :: KeyOf(JobsOf(sys), other)
  }

  /** What a tick of a worker whose repository calls succeed guarantees: batches have one size and
      come right after RecoverExpired, and no job is inserted as available in the past. */
  ghost predicate Fair(sys: System, step: Step, batch: nat) {
    && (step.ClaimBatch? ==> step.batch == batch && forall id :: id in sys.tracks ==> !Expired(sys.tracks[id].job, sys.clock))
    && (step.Insert? ==> step.availableAt >= sys.clock)
  }

  ghost predicate AllFair(sys: System, steps: seq<Step>, batch: nat) {
    forall i :: 0 <= i < |steps| ==> Fair(Run(sys, steps[..i]), steps[i], batch)
  }

  /** Recovering leaves no expired lease, so a batch claimed at the same time is fair. */
  lemma RecoveryMakesClaimFair(sys: System, owner: Id, lease: Time, batch: nat)
    ensures Fair(Next(sys, RecoverExpired), ClaimBatch(owner, lease, batch), batch)
  {
  }

  ghost predicate Claims(sys: System, step: Step, id: Id) {
    step.ClaimBatch? && IsPicked(JobsOf(sys), sys.clock, step.batch, id)
  }

  /** A worker that outlived its lease reports the end of its execution after all. */
  predicate StaleFinish(sys: System, step: Step, id: Id) {
    step.Finish? && step.id == id && id in sys.tracks && step.claim in sys.tracks[id].open
  }

  /** The wait of a job ends. */
  ghost predicate Settles(sys: System, step: Step, id: Id) {
    Claims(sys, step, id) || StaleFinish(sys, step, id)
  }

  function Batches(steps: seq<Step>): nat {
    if steps == [] then 0 else Batches(steps[..|steps| - 1]) + Bit(steps[|steps| - 1].ClaimBatch?)
  }

  // ---- a claim that passes the job over takes a full batch ahead of it -----------------------

  lemma InTop(dir: Direction, keys: set<Key>, n: nat, i: nat)
    requires i < n && i < |keys|
    ensures Sort(dir, keys)[i] in Top(dir, keys, n)
  {
    assert Sort(dir, keys)[i] == Top(dir, keys, n)[i];
  }

  /** When a row misses the batch, the batch is full and every row in it precedes that row. */
  lemma PassedOver(keys: set<Key>, batch: nat, k: Key) returns (taken: set<Key>)
    requires k in keys && k !in Top(Ascending, keys, batch)
    ensures |taken| == batch && taken <= Ahead(Ascending, keys, k)
    ensures forall x :: x in taken ==> x in Top(Ascending, keys, batch)
  {
    var rows := Sort(Ascending, keys);
    SortContents(Ascending, keys, k);
    SortOrdered(Ascending, keys);
    var p :| 0 <= p < |rows| && rows[p] == k;
    if p < batch {
      InTop(Ascending, keys, batch, p);
    }
    SortPosition(Ascending, keys, batch);
    taken := Ahead(Ascending, keys, rows[batch]);
    forall x | x in taken
      ensures x in Top(Ascending, keys, batch) && Precedes(Ascending, x, k)
    {
      SortContents(Ascending, keys, x);
      var i :| 0 <= i < |rows| && rows[i] == x;
      if i >= batch {
        if i > batch {
          PrecedesAsymmetric(Ascending, rows[batch], x);
        }
        PrecedesIrreflexive(Ascending, x);
      }
      InTop(Ascending, keys, batch, i);
    }
  }

  lemma PassedOverTakesBatch(sys: System, step: Step, id: Id, batch: nat)
    requires Waits(sys, id) && step.ClaimBatch? && Fair(sys, step, batch) && !Claims(sys, step, id)
    ensures var after := Next(sys, step);
            id in after.tracks && after.tracks[id] == sys.tracks[id]
            && |AheadOf(after, id)| + batch <= |AheadOf(sys, id)|
  {
    var after := Next(sys, step);
    var jobs := JobsOf(sys);
    var queue := Queue(jobs, sys.clock);
    var key := KeyOf(jobs, id);
    assert Claimable(jobs[id], sys.clock);
    assert key in queue;
    var taken := PassedOver(queue, batch, key);
    forall k | k in taken
      ensures k in AheadOf(sys, id)
    {
      PickedInQueue(jobs, sys.clock, batch, k);
      assert !Expired(sys.tracks[k.id].job, sys.clock);
    }
    forall k | k in AheadOf(after, id)
      ensures k in AheadOf(sys, id) && k !in taken
    {
      assert k.id in after.tracks && after.tracks[k.id].job.status.Waiting();
      assert !IsPicked(jobs, sys.clock, batch, k.id);
      assert after.tracks[k.id] == sys.tracks[k.id];
    }
    SubsetSize(AheadOf(after, id), AheadOf(sys, id) - taken);
    assert AheadOf(sys, id) == (AheadOf(sys, id) - taken) + taken;
  }

  // ---- no other step puts a job ahead --------------------------------------------------------

  lemma NothingMovesAhead(sys: System, step: Step, id: Id, batch: nat)
    requires Waits(sys, id) && !step.ClaimBatch? && !StaleFinish(sys, step, id) && Fair(sys, step, batch)
    ensures Waits(Next(sys, step), id) && Next(sys, step).tracks[id].job == sys.tracks[id].job
    ensures AheadOf(Next(sys, step), id) <= AheadOf(sys, id)
  {
    var after := Next(sys, step);
    assert after.tracks[id].job == sys.tracks[id].job;
    forall k | k in AheadOf(after, id)
      ensures k in AheadOf(sys, id)
    {
      var other :| other in after.tracks && after.tracks[other].job.status.Waiting() && k == KeyOf(JobsOf(after), other);
      if other in sys.tracks && after.tracks[other].job != sys.tracks[other].job {
        LaterIsBehind(sys.tracks[id].job, sys.clock, step, sys.tracks[other]);
      }
    }
  }

  /** A job that a step makes waiting again becomes available at the step's time or later. */
  lemma LaterIsBehind(job: Job, clock: Time, step: Step, other: Track)
    ensures RecoverTrack(other, clock).job != other.job ==> RecoverTrack(other, clock).job.availableAt >= clock
    ensures step.Finish? && FinishTrack(other, step.claim, step.handling, clock).job != other.job ==>
              FinishTrack(other, step.claim, step.handling, clock).job.availableAt >= clock
  {
    if step.Finish? {
      BackoffValues(step.claim.number - 1);
    }
  }

  // ---- runs ----------------------------------------------------------------------------------

  ghost predicate SettledWithin(sys: System, steps: seq<Step>, id: Id) {
    exists i :: 0 <= i < |steps| && Settles(Run(sys, steps[..i]), steps[i], id)
  }

  ghost predicate ClaimedWithin(sys: System, steps: seq<Step>, id: Id) {
    exists i :: 0 <= i < |steps| && Claims(Run(sys, steps[..i]), steps[i], id)
  }

  lemma PrefixFair(sys: System, steps: seq<Step>, id: Id, batch: nat)
    requires steps != [] && AllFair(sys, steps, batch) && !SettledWithin(sys, steps, id)
    ensures AllFair(sys, steps[..|steps| - 1], batch) && !SettledWithin(sys, steps[..|steps| - 1], id)
    ensures Fair(Run(sys, steps[..|steps| - 1]), steps[|steps| - 1], batch)
    ensures !Settles(Run(sys, steps[..|steps| - 1]), steps[|steps| - 1], id)
  {
    var init := steps[..|steps| - 1];
    forall i | 0 <= i < |init|
      ensures Fair(Run(sys, init[..i]), init[i], batch) && !Settles(Run(sys, init[..i]), init[i], id)
    {
      assert init[..i] == steps[..i];
    }
  }

  lemma StepCost(sys: System, step: Step, id: Id, batch: nat)
    requires Waits(sys, id) && Fair(sys, step, batch) && !Settles(sys, step, id)
    ensures Waits(Next(sys, step), id)
    ensures |AheadOf(Next(sys, step), id)| + (if step.ClaimBatch? then batch else 0) <= |AheadOf(sys, id)|
  {
    if step.ClaimBatch? {
      PassedOverTakesBatch(sys, step, id, batch);
    } else {
      NothingMovesAhead(sys, step, id, batch);
      SubsetSize(AheadOf(Next(sys, step), id), AheadOf(sys, id));
    }
  }

  lemma OneMoreBatch(n: nat, batch: nat)
    ensures (n + 1) * batch == n * batch + batch
  {
  }

  /** The job still waits, and n batches have cost the jobs ahead of it n times their size. */
  ghost predicate Paid(sys: System, id: Id, begin: nat, n: nat, batch: nat) {
    Waits(sys, id) && |AheadOf(sys, id)| + n * batch <= begin
  }

  lemma NextPaid(sys: System, step: Step, id: Id, begin: nat, n: nat, batch: nat)
    requires Paid(sys, id, begin, n, batch) && Fair(sys, step, batch) && !Settles(sys, step, id)
    ensures Paid(Next(sys, step), id, begin, n + Bit(step.ClaimBatch?), batch)
  {
    StepCost(sys, step, id, batch);
    OneMoreBatch(n, batch);
  }

  lemma {:induction false} WaitingCostsBatches(sys: System, steps: seq<Step>, id: Id, batch: nat)
    requires Waits(sys, id) && AllFair(sys, steps, batch) && !SettledWithin(sys, steps, id)
    ensures Paid(Run(sys, steps), id, |AheadOf(sys, id)|, Batches(steps), batch)
  {
    if steps != [] {
      var init, last := steps[..|steps| - 1], steps[|steps| - 1];
      PrefixFair(sys, steps, id, batch);
      WaitingCostsBatches(sys, init, id, batch);
      NextPaid(Run(sys, init), last, id, |AheadOf(sys, id)|, Batches(init), batch);
    }
  }

  lemma {:induction false} BatchesGrow(m: nat, n: nat, batch: nat)
    requires m <= n
    ensures m * batch <= n * batch
  {
    if m < n {
      BatchesGrow(m, n - 1, batch);
      OneMoreBatch(n - 1, batch);
    }
  }

  lemma QuotientBound(n: nat, k: nat, batch: nat)
    requires batch >= 1 && n >= k / batch + 1
    ensures n * batch > k
  {
    BatchesGrow(k / batch + 1, n, batch);
    OneMoreBatch(k / batch, batch);
  }

  /** A due job with k waiting jobs ordered before it is claimed by one of the next k/batch + 1
      batches, or a worker that outlived its lease finishes it first, whoever runs the batches, however
      executions end, and whatever is inserted meanwhile. */
  lemma NoStarvation(sys: System, steps: seq<Step>, id: Id, batch: nat)
    requires Waits(sys, id) && AllFair(sys, steps, batch) && batch >= 1
    requires Batches(steps) >= |AheadOf(sys, id)| / batch + 1
    ensures SettledWithin(sys, steps, id)
  {
    if !SettledWithin(sys, steps, id) {
      WaitingCostsBatches(sys, steps, id, batch);
      QuotientBound(Batches(steps), |AheadOf(sys, id)|, batch);
    }
  }

  lemma {:induction false} StaysUnclaimed(sys: System, steps: seq<Step>, id: Id)
    requires id in sys.tracks && sys.tracks[id].open == {}
    requires forall i :: 0 <= i < |steps| ==> !Claims(Run(sys, steps[..i]), steps[i], id)
    ensures id in Run(sys, steps).tracks && Run(sys, steps).tracks[id].open == {}
  {
    if steps != [] {
      var init := steps[..|steps| - 1];
      forall i | 0 <= i < |init|
        ensures !Claims(Run(sys, init[..i]), init[i], id)
      {
        assert init[..i] == steps[..i];
      }
      StaysUnclaimed(sys, init, id);
      assert !Claims(Run(sys, init), steps[|steps| - 1], id);
    }
  }

  /** With no earlier claim still open, nobody but a claim can settle it. */
  lemma UnclaimedIsClaimed(sys: System, steps: seq<Step>, id: Id)
    requires id in sys.tracks && sys.tracks[id].open == {} && SettledWithin(sys, steps, id)
    ensures ClaimedWithin(sys, steps, id)
  {
    var i :| 0 <= i < |steps| && Settles(Run(sys, steps[..i]), steps[i], id);
    if !ClaimedWithin(sys, steps, id) {
      forall j | 0 <= j < i
        ensures !Claims(Run(sys, steps[..i][..j]), steps[..i][j], id)
      {
        assert steps[..i][..j] == steps[..j];
      }
      StaysUnclaimed(sys, steps[..i], id);
    }
  }
}
