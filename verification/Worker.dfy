/** The job repository and the worker loop, statement by statement. */
module Worker {
  import opened Basics
  import opened Counting
  import opened Ordering
  import opened Jobs
  import opened Rows

  /** The two tables the repository writes. */
  datatype Tables = Tables(jobs: Table, attempts: AttemptRows)

  /** Where a claim transaction breaks off, if it does. */
  datatype ClaimFault = NoFault | QueryFails | UpdateFails(row: nat) | CommitFails {
    /** Whether the fault strikes a claim of so many rows. */
    predicate Strikes(rows: nat) {
      QueryFails? || CommitFails? || (UpdateFails? && row < rows)
    }
  }

  /** One execution: when its statements ran, whether they failed, and what the handler returned. */
  datatype Call = Call(recordedAt: Time, recordFails: bool, error: Option<string>, finishedAt: Time, finishFails: bool)

  datatype Config = Config(id: Id, lease: Time, batch: nat, handlers: set<string>)

  /** Everything outside the worker's control during one tick. */
  datatype World = World(now: Time, recoverFails: bool, claimFault: ClaimFault, calls: nat -> Call)

  // ---- what a tick does ----------------------------------------------------------------------

  ghost function ClaimedRows(jobs: Table, keys: seq<Key>): (rows: seq<Claimed>)
    requires forall k :: k in keys ==> k.id in jobs
    ensures |rows| == |keys|
  {
    seq(|keys|, i requires 0 <= i < |keys| => AsClaimed(jobs, keys[i].id))
  }

  ghost function BatchOf(jobs: Table, now: Time, batch: nat): seq<Claimed> {
    PickedRows(jobs, now, batch);
    ClaimedRows(jobs, Picked(jobs, now, batch))
  }

  function HandlingOf(handlers: set<string>, kind: string, call: Call): Handling {
    if kind !in handlers then NoHandler
    else
      match call.error
      case None => Returns
      case Some(message) => Fails(message)
  }

  /** The attempt row, unless the job's kind has no handler or the insert fails. */
  function AfterRecord(t: Tables, config: Config, job: Claimed, call: Call): Tables {
    if job.kind in config.handlers && !call.recordFails then
      t.(attempts := RecordRow(t.attempts, job.id, job.attempts + 1, config.id))
    else t
  }

  function AfterFinish(t: Tables, config: Config, job: Claimed, call: Call): Tables {
    var handling := HandlingOf(config.handlers, job.kind, call);
    if call.finishFails then t
    else
      t.(jobs := FinishTable(t.jobs, job, OutcomeOf(handling, job.attempts, job.maxAttempts),
                             CauseOf(handling, job.kind), call.finishedAt))
  }

  function AfterExecute(t: Tables, config: Config, job: Claimed, call: Call): Tables {
    AfterFinish(AfterRecord(t, config, job, call), config, job, call)
  }

  /** The row of a job whose execution reported its end: succeeded when a handler returned; permanently
      failed when there is none, or it failed with no attempt left; otherwise waiting for the backoff. */
  predicate Ended(was: Job, row: Job, config: Config, job: Claimed, call: Call) {
    var handled, last := job.kind in config.handlers, job.attempts + 1 >= job.maxAttempts;
    && (row.status == Succeeded <==> handled && call.error == None)
    && (row.status == PermanentlyFailed <==> !handled || (call.error.Some? && last))
    && (row.status == RetryWait <==> handled && call.error.Some? && !last)
    && row.availableAt == (if row.status == RetryWait then call.finishedAt + Backoff(job.attempts) else call.finishedAt)
    && row.lastError == (if !handled then "no handler for " + job.kind else if call.error == None then "" else call.error.value)
    && row.leaseOwner == None && row.leaseUntil == None && row.updatedAt == call.finishedAt
    && row.kind == was.kind && row.attempts == was.attempts && row.maxAttempts == was.maxAttempts && row.version == was.version
  }

  /** One execution touches its own job only: its row when the end could be reported, and one attempt
      row when there is a handler and the number is free. */
  predicate Executed(before: Tables, after: Tables, config: Config, job: Claimed, call: Call) {
    && (if call.finishFails || job.id !in before.jobs then after.jobs == before.jobs
        else
          && job.id in after.jobs && Wrote(before.jobs, after.jobs, job.id, after.jobs[job.id])
          && Ended(before.jobs[job.id], after.jobs[job.id], config, job, call))
    && (if job.kind in config.handlers && !call.recordFails && job.id in before.attempts
           && job.attempts + 1 !in before.attempts[job.id] then
          Wrote(before.attempts, after.attempts, job.id, before.attempts[job.id][job.attempts + 1 := config.id])
        else after.attempts == before.attempts)
  }

  lemma AfterExecuteIs(t: Tables, config: Config, job: Claimed, call: Call)
    ensures Executed(t, AfterExecute(t, config, job, call), config, job, call)
  {
  }

  function AfterCalls(t: Tables, config: Config, jobs: seq<Claimed>, calls: nat -> Call): Tables {
    if jobs == [] then t
    else
      var n := |jobs| - 1;
      AfterExecute(AfterCalls(t, config, jobs[..n], calls), config, jobs[n], calls(n))
  }

  ghost function AfterClaim(t: Tables, config: Config, world: World): Tables {
    if world.claimFault.Strikes(|Picked(t.jobs, world.now, config.batch)|) then t
    else
      AfterCalls(t.(jobs := ClaimTable(t.jobs, config.id, world.now, config.lease, config.batch)), config,
                 BatchOf(t.jobs, world.now, config.batch), world.calls)
  }

  ghost function AfterTick(t: Tables, config: Config, world: World): Tables {
    AfterClaim(t.(jobs := if world.recoverFails then t.jobs else RecoverTable(t.jobs, world.now)), config, world)
  }

  /** The table after the first updates of a claim. */
  ghost function LeasedRows(jobs: Table, keys: seq<Key>, owner: Id, until: Time, now: Time): Table {
    map id | id in jobs :: if KeyOf(jobs, id) in keys then Leased(jobs[id], owner, until, now) else jobs[id]
  }

  lemma LeaseNext(jobs: Table, keys: seq<Key>, i: nat, owner: Id, until: Time, now: Time)
    requires Ordered(Ascending, keys) && i < |keys| && keys[i].id in jobs && KeyOf(jobs, keys[i].id) == keys[i]
    ensures var part := LeasedRows(jobs, keys[..i], owner, until, now);
            keys[i].id in part && part[keys[i].id] == jobs[keys[i].id]
            && part[keys[i].id := Leased(part[keys[i].id], owner, until, now)] == LeasedRows(jobs, keys[..i + 1], owner, until, now)
  {
    if keys[i] in keys[..i] {
      var j :| 0 <= j < i && keys[j] == keys[i];
      PrecedesIrreflexive(Ascending, keys[i]);
    }
    assert keys[..i + 1] == keys[..i] + [keys[i]];
  }

  lemma LeaseAll(jobs: Table, now: Time, batch: nat, owner: Id, lease: Time)
    ensures LeasedRows(jobs, Picked(jobs, now, batch), owner, now + lease, now) == ClaimTable(jobs, owner, now, lease, batch)
  {
  }

  lemma PickedRows(jobs: Table, now: Time, batch: nat)
    ensures Ordered(Ascending, Picked(jobs, now, batch))
    ensures forall k :: k in Picked(jobs, now, batch) ==> k.id in jobs && KeyOf(jobs, k.id) == k
  {
    SortOrdered(Ascending, Queue(jobs, now));
    forall k | k in Picked(jobs, now, batch)
      ensures k.id in jobs && KeyOf(jobs, k.id) == k
    {
      PickedInQueue(jobs, now, batch, k);
    }
  }

  class JobRepository {
    var jobs: Table
    var attempts: AttemptRows

    constructor ()
      ensures View() == Tables(map[], map[])
    {
      jobs, attempts := map[], map[];
    }

    ghost function View(): Tables
      reads this
    {
      Tables(jobs, attempts)
    }

    method Scan(keys: seq<Key>) returns (out: seq<Claimed>)
      requires forall k :: k in keys ==> k.id in jobs
      ensures out == ClaimedRows(jobs, keys)
    {
      out := [];
      for i := 0 to |keys|
        invariant out == ClaimedRows(jobs, keys[..i])
      {
        out := out + [AsClaimed(jobs, keys[i].id)];
      }
      assert keys[..|keys|] == keys;
    }

    /** The updates of a claim; the caller rolls back when one of them fails. */
    method LeaseEach(out: seq<Claimed>, ghost keys: seq<Key>, worker: Id, now: Time, lease: Time, fault: ClaimFault)
      returns (ok: bool)
      requires Ordered(Ascending, keys)
      requires forall k :: k in keys ==> k.id in jobs && KeyOf(jobs, k.id) == k
      requires out == ClaimedRows(jobs, keys)
      modifies this`jobs
      ensures ok <==> !(fault.UpdateFails? && fault.row < |out|)
      ensures ok ==> jobs == LeasedRows(old(jobs), keys, worker, now + lease, now)
    {
      ghost var before := jobs;
      for i := 0 to |out|
        invariant fault.UpdateFails? ==> i <= fault.row
        invariant jobs == LeasedRows(before, keys[..i], worker, now + lease, now)
      {
        if fault == UpdateFails(i) {
          return false;
        }
        assert keys[i] in keys;
        LeaseNext(before, keys, i, worker, now + lease, now);
        var id := out[i].id;
        jobs := jobs[id := Leased(jobs[id], worker, now + lease, now)];
      }
      assert keys[..|out|] == keys;
      ok := true;
    }

    /** A claim either takes the whole batch, in queue order, or leaves the table as it was. */
    method Claim(worker: Id, now: Time, lease: Time, batch: nat, fault: ClaimFault) returns (ok: bool, out: seq<Claimed>)
      modifies this`jobs
      ensures ok <==> !fault.Strikes(|Picked(old(jobs), now, batch)|)
      ensures ok ==> jobs == ClaimTable(old(jobs), worker, now, lease, batch) && out == BatchOf(old(jobs), now, batch)
      ensures !ok ==> jobs == old(jobs) && out == []
    {
      var snapshot := jobs;
      if fault == QueryFails {
        return false, [];
      }
      var keys := Select(Ascending, Queue(jobs, now), batch);
      PickedRows(jobs, now, batch);
      out := Scan(keys);
      ok := LeaseEach(out, keys, worker, now, lease, fault);
      LeaseAll(snapshot, now, batch, worker, lease);
      if !ok || fault == CommitFails {
        jobs := snapshot;
        return false, [];
      }
    }

    method RecordAttempt(job: Claimed, worker: Id, now: Time, fails: bool)
      modifies this
      ensures jobs == old(jobs)
      ensures attempts == if fails then old(attempts) else RecordRow(old(attempts), job.id, job.attempts + 1, worker)
    {
      if !fails && job.id in attempts && job.attempts + 1 !in attempts[job.id] {
        attempts := attempts[job.id := attempts[job.id][job.attempts + 1 := worker]];
      }
    }

    method Finish(job: Claimed, outcome: Outcome, cause: string, now: Time, fails: bool)
      modifies this
      ensures attempts == old(attempts)
      ensures jobs == if fails then old(jobs) else FinishTable(old(jobs), job, outcome, cause, now)
      ensures !fails && job.id in old(jobs) ==>
                job.id in jobs
                && (jobs[job.id].status == Succeeded <==> outcome == Succeeds)
                && (jobs[job.id].status == PermanentlyFailed <==> outcome == Permanent)
                && (jobs[job.id].status == RetryWait <==> outcome == Retryable)
    {
      var status := StatusFor(outcome);
      var next := now;
      if status.RetryWait? {
        next := now + Backoff(job.attempts);
      }
      if !fails && job.id in jobs {
        var row := jobs[job.id];
        jobs := jobs[job.id := row.(status := status, availableAt := next, leaseOwner := None, leaseUntil := None,
                                    lastError := cause, updatedAt := now)];
      }
    }

    method RecoverExpired(now: Time, fails: bool)
      modifies this
      ensures attempts == old(attempts)
      ensures jobs == if fails then old(jobs) else RecoverTable(old(jobs), now)
    {
      if !fails {
        jobs := map id | id in jobs :: Recovered(jobs[id], now);
      }
    }
  }

  class Loop {
    const repo: JobRepository
    const config: Config

    constructor (repo: JobRepository, config: Config)
      ensures this.repo == repo && this.config == config
    {
      this.repo, this.config := repo, config;
    }

    method Execute(job: Claimed, call: Call)
      modifies repo
      ensures repo.View() == AfterExecute(old(repo.View()), config, job, call)
      ensures Executed(old(repo.View()), repo.View(), config, job, call)
    {
      AfterExecuteIs(repo.View(), config, job, call);
      if job.kind !in config.handlers {
        repo.Finish(job, Permanent, "no handler for " + job.kind, call.finishedAt, call.finishFails);
        return;
      }
      repo.RecordAttempt(job, config.id, call.recordedAt, call.recordFails);
      if call.error.None? {
        repo.Finish(job, Succeeds, "", call.finishedAt, call.finishFails);
        return;
      }
      var outcome := Retryable;
      if job.attempts + 1 >= job.maxAttempts {
        outcome := Permanent;
      }
      repo.Finish(job, outcome, call.error.value, call.finishedAt, call.finishFails);
    }

    /** A tick recovers expired leases, claims one batch and executes it in order. */
    method Tick(world: World)
      modifies repo
      ensures repo.View() == AfterTick(old(repo.View()), config, world)
    {
      repo.RecoverExpired(world.now, world.recoverFails);
      ghost var swept := repo.jobs;
      var ok, jobs := repo.Claim(config.id, world.now, config.lease, config.batch, world.claimFault);
      if !ok {
        return;
      }
      ghost var claimed := repo.View();
      for i := 0 to |jobs|
        invariant repo.View() == AfterCalls(claimed, config, jobs[..i], world.calls)
      {
        Execute(jobs[i], world.calls(i));
        assert jobs[..i + 1][..i] == jobs[..i];
      }
      assert jobs[..|jobs|] == jobs;
    }
  }
}
