/** A worker loop as steps of the shared system: each tick is a run of steps, and the promises made
    for arbitrary runs hold for a loop of ticks. */
module SoloWorker {
  import opened Basics
  import opened Counting
  import opened Ordering
  import opened Jobs
  import opened WorkerSystem
  import opened Starvation
  import W = Worker

  function TablesOf(sys: System): W.Tables {
    W.Tables(JobsOf(sys), RowsOf(sys))
  }

  function ClaimOf(config: W.Config, until: Time, row: Claimed): Claim {
    Claim(row.attempts + 1, config.id, until)
  }

  function CallSteps(config: W.Config, until: Time, row: Claimed, call: W.Call): seq<Step> {
    var claim := ClaimOf(config, until, row);
    (if row.kind in config.handlers && !call.recordFails then [Advance(call.recordedAt), RecordAttempt(row.id, claim)] else [])
    + [Advance(call.finishedAt),
       if call.finishFails then Lose(row.id, claim) else Finish(row.id, claim, W.HandlingOf(config.handlers, row.kind, call))]
  }

  function BatchSteps(config: W.Config, until: Time, rows: seq<Claimed>, calls: nat -> W.Call): seq<Step> {
    if rows == [] then []
    else
      var n := |rows| - 1;
      BatchSteps(config, until, rows[..n], calls) + CallSteps(config, until, rows[n], calls(n))
  }

  function SweepSteps(world: W.World): seq<Step> {
    if world.recoverFails then [Advance(world.now)] else [Advance(world.now), RecoverExpired]
  }

  /** The claim of a batch and its executions. */
  function TakenSteps(config: W.Config, world: W.World, rows: seq<Claimed>): seq<Step> {
    [ClaimBatch(config.id, config.lease, config.batch)] + BatchSteps(config, world.now + config.lease, rows, world.calls)
  }

  ghost function ClaimSteps(swept: System, config: W.Config, world: W.World): seq<Step> {
    if world.claimFault.Strikes(|Picked(JobsOf(swept), world.now, config.batch)|) then []
    else
      TakenSteps(config, world, W.BatchOf(JobsOf(swept), world.now, config.batch))
  }

  ghost function TickSteps(sys: System, config: W.Config, world: W.World): seq<Step> {
    SweepSteps(world) + ClaimSteps(Run(sys, SweepSteps(world)), config, world)
  }

  /** The worker's clock never runs backwards during a tick. */
  function Before(world: W.World, i: nat): Time {
    if i == 0 then world.now else world.calls(i - 1).finishedAt
  }

  ghost predicate InOrder(world: W.World) {
    forall i: nat {:trigger Before(world, i)} :: Before(world, i) <= world.calls(i).recordedAt <= world.calls(i).finishedAt
  }

  // ---- a tick is a run -----------------------------------------------------------------------

  lemma {:induction false} RunConcat(sys: System, a: seq<Step>, b: seq<Step>)
    ensures Run(sys, a + b) == Run(Run(sys, a), b)
  {
    if b == [] {
      assert a + b == a;
    } else {
      var n := |b| - 1;
      RunConcat(sys, a, b[..n]);
      assert (a + b)[..|a + b| - 1] == a + b[..n];
    }
  }

  lemma RunOne(sys: System, step: Step)
    ensures Run(sys, [step]) == Next(sys, step)
  {
    assert [step][..0] == [];
  }

  lemma RunTwo(sys: System, a: Step, b: Step)
    ensures Run(sys, [a, b]) == Next(Next(sys, a), b)
  {
    RunOne(sys, a);
    RunOne(Next(sys, a), b);
    RunConcat(sys, [a], [b]);
    assert [a] + [b] == [a, b];
  }

  /** The claim of a batch row is open in the system and has not recorded its attempt. */
  predicate OpenFor(sys: System, row: Claimed, claim: Claim) {
    && row.id in sys.tracks
    && claim in sys.tracks[row.id].open && claim !in sys.tracks[row.id].started
    && sys.tracks[row.id].job.kind == row.kind && sys.tracks[row.id].job.maxAttempts == row.maxAttempts
  }

  predicate OthersKept(before: System, after: System, id: Id) {
    after.tracks.Keys == before.tracks.Keys && forall other :: other in before.tracks && other != id ==> after.tracks[other] == before.tracks[other]
  }

  lemma RecordFollows(sys: System, config: W.Config, until: Time, row: Claimed, call: W.Call)
    requires OpenFor(sys, row, ClaimOf(config, until, row)) && sys.clock <= call.recordedAt
    ensures var claim := ClaimOf(config, until, row);
            var after := Run(sys, [Advance(call.recordedAt), RecordAttempt(row.id, claim)]);
            && after.clock == call.recordedAt && OthersKept(sys, after, row.id)
            && TablesOf(after) == W.Tables(JobsOf(sys), RecordRow(RowsOf(sys), row.id, claim.number, config.id))
            && after.tracks[row.id].job == sys.tracks[row.id].job && after.tracks[row.id].open == sys.tracks[row.id].open
  {
    var claim := ClaimOf(config, until, row);
    RunTwo(sys, Advance(call.recordedAt), RecordAttempt(row.id, claim));
    RecordFollowsRepository(Next(sys, Advance(call.recordedAt)), row.id, claim);
  }

  lemma FinishFollows(sys: System, config: W.Config, until: Time, row: Claimed, call: W.Call)
    requires row.id in sys.tracks && ClaimOf(config, until, row) in sys.tracks[row.id].open && sys.clock <= call.finishedAt
    requires sys.tracks[row.id].job.kind == row.kind && sys.tracks[row.id].job.maxAttempts == row.maxAttempts
    ensures var claim := ClaimOf(config, until, row);
            var last := if call.finishFails then Lose(row.id, claim)
                        else Finish(row.id, claim, W.HandlingOf(config.handlers, row.kind, call));
            var after := Run(sys, [Advance(call.finishedAt), last]);
            && after.clock == call.finishedAt && OthersKept(sys, after, row.id)
            && TablesOf(after) == W.AfterFinish(TablesOf(sys), config, row, call)
  {
    var claim := ClaimOf(config, until, row);
    var handling := W.HandlingOf(config.handlers, row.kind, call);
    var mid := Next(sys, Advance(call.finishedAt));
    if call.finishFails {
      RunTwo(sys, Advance(call.finishedAt), Lose(row.id, claim));
      assert JobsOf(Next(mid, Lose(row.id, claim))) == JobsOf(sys);
      assert RowsOf(Next(mid, Lose(row.id, claim))) == RowsOf(sys);
    } else {
      RunTwo(sys, Advance(call.finishedAt), Finish(row.id, claim, handling));
      assert JobsOf(mid) == JobsOf(sys) && RowsOf(mid) == RowsOf(sys);
      FinishFollowsRepository(mid, row.id, claim, handling);
    }
  }

  lemma CallFollows(sys: System, config: W.Config, until: Time, row: Claimed, call: W.Call)
    requires OpenFor(sys, row, ClaimOf(config, until, row)) && sys.clock <= call.recordedAt <= call.finishedAt
    ensures Followed(sys, Run(sys, CallSteps(config, until, row, call)), config, row, call)
  {
    var claim := ClaimOf(config, until, row);
    var last := if call.finishFails then Lose(row.id, claim)
                else Finish(row.id, claim, W.HandlingOf(config.handlers, row.kind, call));
    if row.kind in config.handlers && !call.recordFails {
      RecordFollows(sys, config, until, row, call);
      var record := [Advance(call.recordedAt), RecordAttempt(row.id, claim)];
      FinishFollows(Run(sys, record), config, until, row, call);
      RunConcat(sys, record, [Advance(call.finishedAt), last]);
    } else {
      FinishFollows(sys, config, until, row, call);
      assert CallSteps(config, until, row, call) == [Advance(call.finishedAt), last];
    }
  }

  ghost predicate OpenFrom(sys: System, config: W.Config, until: Time, rows: seq<Claimed>, k: nat) {
    forall j :: k <= j < |rows| ==> OpenFor(sys, rows[j], ClaimOf(config, until, rows[j]))
  }

  ghost predicate DistinctRows(rows: seq<Claimed>) {
    forall i, j :: 0 <= i < j < |rows| ==> rows[i].id != rows[j].id
  }

  /** The first k executions of a batch are done and the later claims are still open. */
  ghost predicate Executed(sys: System, t: W.Tables, config: W.Config, world: W.World, rows: seq<Claimed>, k: nat)
    requires k <= |rows|
  {
    && sys.clock == Before(world, k) && TablesOf(sys) == W.AfterCalls(t, config, rows[..k], world.calls)
    && OpenFrom(sys, config, world.now + config.lease, rows, k)
  }

  lemma LaterClaimsStayOpen(sys: System, after: System, config: W.Config, until: Time, rows: seq<Claimed>, k: nat)
    requires k < |rows| && DistinctRows(rows) && OpenFrom(sys, config, until, rows, k) && OthersKept(sys, after, rows[k].id)
    ensures OpenFrom(after, config, until, rows, k + 1)
  {
    forall j | k + 1 <= j < |rows|
      ensures OpenFor(after, rows[j], ClaimOf(config, until, rows[j]))
    {
      assert OpenFor(sys, rows[j], ClaimOf(config, until, rows[j]));
    }
  }

  lemma OneMoreCall(t: W.Tables, config: W.Config, rows: seq<Claimed>, calls: nat -> W.Call, k: nat)
    requires k < |rows|
    ensures W.AfterCalls(t, config, rows[..k + 1], calls)
            == W.AfterExecute(W.AfterCalls(t, config, rows[..k], calls), config, rows[k], calls(k))
  {
    assert rows[..k + 1][..k] == rows[..k];
  }

  /** What executing one claim does to the system, whatever steps it took. */
  predicate Followed(sys: System, after: System, config: W.Config, row: Claimed, call: W.Call) {
    && after.clock == call.finishedAt && OthersKept(sys, after, row.id)
    && TablesOf(after) == W.AfterExecute(TablesOf(sys), config, row, call)
  }

  lemma NextCall(sys: System, after: System, t: W.Tables, config: W.Config, world: W.World, rows: seq<Claimed>, k: nat)
    requires k < |rows| && DistinctRows(rows) && Executed(sys, t, config, world, rows, k)
    requires Followed(sys, after, config, rows[k], world.calls(k))
    ensures Executed(after, t, config, world, rows, k + 1)
  {
    LaterClaimsStayOpen(sys, after, config, world.now + config.lease, rows, k);
    OneMoreCall(t, config, rows, world.calls, k);
  }

  lemma ExecutedCall(sys: System, t: W.Tables, config: W.Config, world: W.World, rows: seq<Claimed>, k: nat)
    requires k < |rows| && DistinctRows(rows) && InOrder(world) && Executed(sys, t, config, world, rows, k)
    ensures Executed(Run(sys, CallSteps(config, world.now + config.lease, rows[k], world.calls(k))), t, config, world, rows, k + 1)
  {
    var until := world.now + config.lease;
    assert OpenFor(sys, rows[k], ClaimOf(config, until, rows[k]));
    assert Before(world, k) <= world.calls(k).recordedAt <= world.calls(k).finishedAt;
    CallFollows(sys, config, until, rows[k], world.calls(k));
    NextCall(sys, Run(sys, CallSteps(config, until, rows[k], world.calls(k))), t, config, world, rows, k);
  }

  lemma {:induction false} BatchFollows(sys: System, config: W.Config, world: W.World, rows: seq<Claimed>, k: nat)
    requires k <= |rows| && DistinctRows(rows) && InOrder(world) && Executed(sys, TablesOf(sys), config, world, rows, 0)
    ensures Executed(Run(sys, BatchSteps(config, world.now + config.lease, rows[..k], world.calls)), TablesOf(sys), config, world, rows, k)
  {
    var until := world.now + config.lease;
    if k == 0 {
      assert rows[..0] == [];
      assert Run(sys, []) == sys;
    } else {
      BatchFollows(sys, config, world, rows, k - 1);
      var begun := BatchSteps(config, until, rows[..k - 1], world.calls);
      var mid := Run(sys, begun);
      ExecutedCall(mid, TablesOf(sys), config, world, rows, k - 1);
      MoreSteps(config, until, rows, world.calls, k - 1);
      RunConcat(sys, begun, CallSteps(config, until, rows[k - 1], world.calls(k - 1)));
    }
  }

  lemma MoreSteps(config: W.Config, until: Time, rows: seq<Claimed>, calls: nat -> W.Call, k: nat)
    requires k < |rows|
    ensures BatchSteps(config, until, rows[..k + 1], calls) == BatchSteps(config, until, rows[..k], calls) + CallSteps(config, until, rows[k], calls(k))
  {
    assert rows[..k + 1][..k] == rows[..k];
  }

  lemma ClaimOpensBatch(sys: System, config: W.Config)
    requires Invariant(sys)
    ensures var rows := W.BatchOf(JobsOf(sys), sys.clock, config.batch);
            var after := Next(sys, ClaimBatch(config.id, config.lease, config.batch));
            DistinctRows(rows) && OpenFrom(after, config, sys.clock + config.lease, rows, 0)
  {
    var jobs := JobsOf(sys);
    var keys := Picked(jobs, sys.clock, config.batch);
    var rows := W.BatchOf(jobs, sys.clock, config.batch);
    var after := Next(sys, ClaimBatch(config.id, config.lease, config.batch));
    W.PickedRows(jobs, sys.clock, config.batch);
    forall j | 0 <= j < |rows|
      ensures OpenFor(after, rows[j], ClaimOf(config, sys.clock + config.lease, rows[j]))
    {
      assert keys[j] in keys && IsPicked(jobs, sys.clock, config.batch, keys[j].id);
      assert TrackInvariant(sys.tracks[keys[j].id], sys.clock);
    }
    forall i, j | 0 <= i < j < |rows|
      ensures rows[i].id != rows[j].id
    {
      assert keys[i] in keys && keys[j] in keys;
      PrecedesIrreflexive(Ascending, keys[i]);
    }
  }

  lemma SweepFollows(sys: System, world: W.World)
    requires sys.clock <= world.now
    ensures var after := Run(sys, SweepSteps(world));
            && after.clock == world.now && RowsOf(after) == RowsOf(sys)
            && JobsOf(after) == if world.recoverFails then JobsOf(sys) else RecoverTable(JobsOf(sys), world.now)
  {
    if world.recoverFails {
      RunOne(sys, Advance(world.now));
    } else {
      RunTwo(sys, Advance(world.now), RecoverExpired);
      RecoverFollowsRepository(Next(sys, Advance(world.now)));
    }
  }

  lemma RunTaken(swept: System, config: W.Config, world: W.World, rows: seq<Claimed>)
    ensures Run(swept, TakenSteps(config, world, rows))
            == Run(Run(swept, [ClaimBatch(config.id, config.lease, config.batch)]),
                   BatchSteps(config, world.now + config.lease, rows, world.calls))
  {
    RunConcat(swept, [ClaimBatch(config.id, config.lease, config.batch)],
              BatchSteps(config, world.now + config.lease, rows, world.calls));
  }

  lemma WholeBatchFollows(claimed: System, config: W.Config, world: W.World, rows: seq<Claimed>)
    requires claimed.clock == world.now && InOrder(world) && DistinctRows(rows)
    requires OpenFrom(claimed, config, world.now + config.lease, rows, 0)
    ensures TablesOf(Run(claimed, BatchSteps(config, world.now + config.lease, rows, world.calls)))
            == W.AfterCalls(TablesOf(claimed), config, rows, world.calls)
  {
    BatchFollows(claimed, config, world, rows, |rows|);
    assert rows[..|rows|] == rows;
  }

  lemma ClaimedTables(swept: System, config: W.Config)
    requires Invariant(swept)
    ensures var rows := W.BatchOf(JobsOf(swept), swept.clock, config.batch);
            var claimed := Run(swept, [ClaimBatch(config.id, config.lease, config.batch)]);
            && claimed.clock == swept.clock && DistinctRows(rows)
            && OpenFrom(claimed, config, swept.clock + config.lease, rows, 0)
            && TablesOf(claimed) == W.Tables(ClaimTable(JobsOf(swept), config.id, swept.clock, config.lease, config.batch), RowsOf(swept))
  {
    ClaimOpensBatch(swept, config);
    ClaimFollowsRepository(swept, config.id, config.lease, config.batch);
    RunOne(swept, ClaimBatch(config.id, config.lease, config.batch));
  }

  lemma ClaimTakenFollows(swept: System, config: W.Config, world: W.World)
    requires Invariant(swept) && swept.clock == world.now && InOrder(world)
    ensures var rows := W.BatchOf(JobsOf(swept), world.now, config.batch);
            var claimed := W.Tables(ClaimTable(JobsOf(swept), config.id, world.now, config.lease, config.batch), RowsOf(swept));
            TablesOf(Run(swept, TakenSteps(config, world, rows))) == W.AfterCalls(claimed, config, rows, world.calls)
  {
    var rows := W.BatchOf(JobsOf(swept), world.now, config.batch);
    ClaimedTables(swept, config);
    RunTaken(swept, config, world, rows);
    WholeBatchFollows(Run(swept, [ClaimBatch(config.id, config.lease, config.batch)]), config, world, rows);
  }

  lemma StruckClaimFollows(swept: System, config: W.Config, world: W.World)
    requires world.claimFault.Strikes(|Picked(JobsOf(swept), world.now, config.batch)|)
    ensures ClaimSteps(swept, config, world) == [] && W.AfterClaim(TablesOf(swept), config, world) == TablesOf(swept)
  {
  }

  lemma SoundClaimFollows(swept: System, config: W.Config, world: W.World)
    requires Invariant(swept) && swept.clock == world.now && InOrder(world)
    requires !world.claimFault.Strikes(|Picked(JobsOf(swept), world.now, config.batch)|)
    ensures TablesOf(Run(swept, ClaimSteps(swept, config, world))) == W.AfterClaim(TablesOf(swept), config, world)
  {
    ClaimTakenFollows(swept, config, world);
  }

  lemma ClaimStepsFollow(swept: System, config: W.Config, world: W.World)
    requires Invariant(swept) && swept.clock == world.now && InOrder(world)
    ensures TablesOf(Run(swept, ClaimSteps(swept, config, world))) == W.AfterClaim(TablesOf(swept), config, world)
  {
    if world.claimFault.Strikes(|Picked(JobsOf(swept), world.now, config.batch)|) {
      StruckClaimFollows(swept, config, world);
    } else {
      SoundClaimFollows(swept, config, world);
    }
  }

  /** A tick of the worker loop changes the tables exactly as its steps change the system. */
  lemma TickIsRun(sys: System, config: W.Config, world: W.World)
    requires Invariant(sys) && sys.clock <= world.now && InOrder(world)
    ensures TablesOf(Run(sys, TickSteps(sys, config, world))) == W.AfterTick(TablesOf(sys), config, world)
  {
    var swept := Run(sys, SweepSteps(world));
    SweepFollows(sys, world);
    RunInvariant(sys, SweepSteps(world));
    ClaimStepsFollow(swept, config, world);
    RunConcat(sys, SweepSteps(world), ClaimSteps(swept, config, world));
  }

  // ---- fairness of a tick --------------------------------------------------------------------

  /** Steps that neither claim nor insert. */
  predicate Harmless(step: Step) {
    !step.ClaimBatch? && !step.Insert?
  }

  lemma {:induction false} BatchStepsHarmless(config: W.Config, until: Time, rows: seq<Claimed>, calls: nat -> W.Call)
    ensures forall s :: s in BatchSteps(config, until, rows, calls) ==> Harmless(s)
  {
    if rows != [] {
      var n := |rows| - 1;
      BatchStepsHarmless(config, until, rows[..n], calls);
      assert forall s :: s in CallSteps(config, until, rows[n], calls(n)) ==> Harmless(s);
    }
  }

  lemma {:induction false} HarmlessBatches(steps: seq<Step>)
    requires forall s :: s in steps ==> Harmless(s)
    ensures Batches(steps) == 0
  {
    if steps != [] {
      var n := |steps| - 1;
      assert steps[n] in steps && forall s :: s in steps[..n] ==> s in steps;
      HarmlessBatches(steps[..n]);
    }
  }

  lemma HarmlessFair(sys: System, steps: seq<Step>, batch: nat)
    requires forall s :: s in steps ==> Harmless(s)
    ensures AllFair(sys, steps, batch)
  {
    forall i | 0 <= i < |steps|
      ensures Fair(Run(sys, steps[..i]), steps[i], batch)
    {
      assert steps[i] in steps;
    }
  }

  lemma FairConcat(sys: System, a: seq<Step>, b: seq<Step>, batch: nat)
    requires AllFair(sys, a, batch) && AllFair(Run(sys, a), b, batch)
    ensures AllFair(sys, a + b, batch)
  {
    forall i | 0 <= i < |a + b|
      ensures Fair(Run(sys, (a + b)[..i]), (a + b)[i], batch)
    {
      if i < |a| {
        assert (a + b)[..i] == a[..i];
      } else {
        assert (a + b)[..i] == a + b[..i - |a|];
        RunConcat(sys, a, b[..i - |a|]);
      }
    }
  }

  lemma {:induction false} BatchesConcat(a: seq<Step>, b: seq<Step>)
    ensures Batches(a + b) == Batches(a) + Batches(b)
  {
    if b == [] {
      assert a + b == a;
    } else {
      var n := |b| - 1;
      BatchesConcat(a, b[..n]);
      assert (a + b)[..|a + b| - 1] == a + b[..n];
    }
  }

  predicate Undisturbed(world: W.World) {
    !world.recoverFails && world.claimFault.NoFault?
  }

  lemma SingleFair(sys: System, step: Step, batch: nat)
    requires Fair(sys, step, batch)
    ensures AllFair(sys, [step], batch)
  {
    assert [step][..0] == [];
  }

  lemma ClaimedBatchIsFair(sys: System, config: W.Config, world: W.World, rows: seq<Claimed>)
    requires Fair(sys, ClaimBatch(config.id, config.lease, config.batch), config.batch)
    ensures AllFair(sys, TakenSteps(config, world, rows),
                    config.batch)
  {
    var claim := ClaimBatch(config.id, config.lease, config.batch);
    var calls := BatchSteps(config, world.now + config.lease, rows, world.calls);
    SingleFair(sys, claim, config.batch);
    BatchStepsHarmless(config, world.now + config.lease, rows, world.calls);
    HarmlessFair(Run(sys, [claim]), calls, config.batch);
    FairConcat(sys, [claim], calls, config.batch);
  }

  lemma OneBatch(config: W.Config, world: W.World, rows: seq<Claimed>)
    ensures Batches(TakenSteps(config, world, rows)) == 1
  {
    var claim := ClaimBatch(config.id, config.lease, config.batch);
    var calls := BatchSteps(config, world.now + config.lease, rows, world.calls);
    BatchStepsHarmless(config, world.now + config.lease, rows, world.calls);
    HarmlessBatches(calls);
    BatchesConcat([claim], calls);
    assert [claim][..0] == [];
    assert Batches([claim]) == 1;
  }

  lemma ClaimStepsFair(swept: System, config: W.Config, world: W.World, steps: seq<Step>)
    requires Undisturbed(world) && Fair(swept, ClaimBatch(config.id, config.lease, config.batch), config.batch)
    requires steps == ClaimSteps(swept, config, world)
    ensures AllFair(swept, steps, config.batch)
  {
    ClaimedBatchIsFair(swept, config, world, W.BatchOf(JobsOf(swept), world.now, config.batch));
  }

  lemma ClaimStepsClaimOnce(swept: System, config: W.Config, world: W.World)
    requires Undisturbed(world)
    ensures Batches(ClaimSteps(swept, config, world)) == 1
  {
    OneBatch(config, world, W.BatchOf(JobsOf(swept), world.now, config.batch));
  }

  lemma TickIsFair(sys: System, config: W.Config, world: W.World)
    requires sys.clock <= world.now && Undisturbed(world)
    ensures AllFair(sys, TickSteps(sys, config, world), config.batch) && Batches(TickSteps(sys, config, world)) == 1
  {
    var sweep := SweepSteps(world);
    var swept := Run(sys, sweep);
    RunTwo(sys, Advance(world.now), RecoverExpired);
    RecoveryMakesClaimFair(Next(sys, Advance(world.now)), config.id, config.lease, config.batch);
    ClaimStepsFair(swept, config, world, ClaimSteps(swept, config, world));
    ClaimStepsClaimOnce(swept, config, world);
    HarmlessFair(sys, sweep, config.batch);
    HarmlessBatches(sweep);
    FairConcat(sys, sweep, ClaimSteps(swept, config, world), config.batch);
    BatchesConcat(sweep, ClaimSteps(swept, config, world));
  }

  // ---- a loop of ticks -----------------------------------------------------------------------

  datatype Event = Tick(world: W.World) | Arrive(id: Id, kind: string, maxAttempts: nat, availableAt: Time)

  ghost function EventSteps(sys: System, config: W.Config, event: Event): seq<Step> {
    match event
    case Tick(world) => TickSteps(sys, config, world)
    case Arrive(id, kind, maxAttempts, availableAt) => [Insert(id, kind, maxAttempts, availableAt)]
  }

  /** Ticks succeed at the current time or later; no job arrives as available in the past. */
  ghost predicate Smooth(sys: System, event: Event) {
    match event
    case Tick(world) => sys.clock <= world.now && Undisturbed(world)
    case Arrive(_, _, _, availableAt) => availableAt >= sys.clock
  }

  ghost function LoopSteps(sys: System, config: W.Config, events: seq<Event>): seq<Step> {
    if events == [] then []
    else
      var begun := LoopSteps(sys, config, events[..|events| - 1]);
      begun + EventSteps(Run(sys, begun), config, events[|events| - 1])
  }

  ghost predicate AllSmooth(sys: System, config: W.Config, events: seq<Event>) {
    forall i :: 0 <= i < |events| ==> Smooth(Run(sys, LoopSteps(sys, config, events[..i])), events[i])
  }

  function Ticks(events: seq<Event>): nat {
    if events == [] then 0 else Ticks(events[..|events| - 1]) + Bit(events[|events| - 1].Tick?)
  }

  lemma EventIsFair(sys: System, config: W.Config, event: Event)
    requires Smooth(sys, event)
    ensures AllFair(sys, EventSteps(sys, config, event), config.batch)
    ensures Batches(EventSteps(sys, config, event)) == Bit(event.Tick?)
  {
    match event
    case Tick(world) => TickIsFair(sys, config, world);
    case Arrive(id, kind, maxAttempts, availableAt) =>
      SingleFair(sys, Insert(id, kind, maxAttempts, availableAt), config.batch);
      assert Batches([Insert(id, kind, maxAttempts, availableAt)]) == 0;
  }

  lemma PrefixSmooth(sys: System, config: W.Config, events: seq<Event>)
    requires AllSmooth(sys, config, events) && events != []
    ensures AllSmooth(sys, config, events[..|events| - 1])
    ensures Smooth(Run(sys, LoopSteps(sys, config, events[..|events| - 1])), events[|events| - 1])
  {
    var init := events[..|events| - 1];
    forall i | 0 <= i < |init|
      ensures Smooth(Run(sys, LoopSteps(sys, config, init[..i])), init[i])
    {
      assert init[..i] == events[..i];
    }
  }

  lemma {:induction false} LoopIsFair(sys: System, config: W.Config, events: seq<Event>)
    requires AllSmooth(sys, config, events)
    ensures AllFair(sys, LoopSteps(sys, config, events), config.batch)
    ensures Batches(LoopSteps(sys, config, events)) == Ticks(events)
  {
    if events != [] {
      var init, last := events[..|events| - 1], events[|events| - 1];
      PrefixSmooth(sys, config, events);
      LoopIsFair(sys, config, init);
      var begun := LoopSteps(sys, config, init);
      var mid := Run(sys, begun);
      EventIsFair(mid, config, last);
      FairConcat(sys, begun, EventSteps(mid, config, last), config.batch);
      BatchesConcat(begun, EventSteps(mid, config, last));
    }
  }

  // ---- between ticks no claim is open --------------------------------------------------------

  ghost predicate AllClosed(sys: System) {
    forall id :: id in sys.tracks ==> sys.tracks[id].open == {}
  }

  /** The only open claims are those of the batch rows from k on. */
  ghost predicate OnlyFrom(sys: System, config: W.Config, until: Time, rows: seq<Claimed>, k: nat) {
    forall id, c :: id in sys.tracks && c in sys.tracks[id].open ==>
      exists j :: k <= j < |rows| && rows[j].id == id && ClaimOf(config, until, rows[j]) == c
  }

  /** One claim less, and every other claim as before. */
  ghost predicate Closes(before: System, after: System, id: Id, claim: Claim) {
    && after.tracks.Keys == before.tracks.Keys
    && forall x :: x in before.tracks ==> after.tracks[x].open == before.tracks[x].open - (if x == id then {claim} else {})
  }

  lemma RecordKeepsOpen(sys: System, config: W.Config, until: Time, row: Claimed, call: W.Call)
    ensures var after := Run(sys, [Advance(call.recordedAt), RecordAttempt(row.id, ClaimOf(config, until, row))]);
            after.tracks.Keys == sys.tracks.Keys && forall x :: x in sys.tracks ==> after.tracks[x].open == sys.tracks[x].open
  {
    RunTwo(sys, Advance(call.recordedAt), RecordAttempt(row.id, ClaimOf(config, until, row)));
  }

  lemma EndCloses(sys: System, config: W.Config, until: Time, row: Claimed, call: W.Call)
    ensures var claim := ClaimOf(config, until, row);
            var last := if call.finishFails then Lose(row.id, claim)
                        else Finish(row.id, claim, W.HandlingOf(config.handlers, row.kind, call));
            Closes(sys, Run(sys, [Advance(call.finishedAt), last]), row.id, claim)
  {
    var claim := ClaimOf(config, until, row);
    var last := if call.finishFails then Lose(row.id, claim)
                else Finish(row.id, claim, W.HandlingOf(config.handlers, row.kind, call));
    RunTwo(sys, Advance(call.finishedAt), last);
  }

  /** However an execution ends, its claim is not open afterwards. */
  lemma CallCloses(sys: System, config: W.Config, until: Time, row: Claimed, call: W.Call)
    ensures Closes(sys, Run(sys, CallSteps(config, until, row, call)), row.id, ClaimOf(config, until, row))
  {
    var claim := ClaimOf(config, until, row);
    var last := if call.finishFails then Lose(row.id, claim)
                else Finish(row.id, claim, W.HandlingOf(config.handlers, row.kind, call));
    if row.kind in config.handlers && !call.recordFails {
      var record := [Advance(call.recordedAt), RecordAttempt(row.id, claim)];
      RecordKeepsOpen(sys, config, until, row, call);
      EndCloses(Run(sys, record), config, until, row, call);
      RunConcat(sys, record, [Advance(call.finishedAt), last]);
    } else {
      EndCloses(sys, config, until, row, call);
      assert CallSteps(config, until, row, call) == [Advance(call.finishedAt), last];
    }
  }

  lemma NextClosed(sys: System, after: System, config: W.Config, until: Time, rows: seq<Claimed>, k: nat)
    requires k < |rows| && OnlyFrom(sys, config, until, rows, k)
    requires Closes(sys, after, rows[k].id, ClaimOf(config, until, rows[k]))
    ensures OnlyFrom(after, config, until, rows, k + 1)
  {
    forall id, c | id in after.tracks && c in after.tracks[id].open
      ensures exists j :: k + 1 <= j < |rows| && rows[j].id == id && ClaimOf(config, until, rows[j]) == c
    {
      assert c in sys.tracks[id].open;
      var j :| k <= j < |rows| && rows[j].id == id && ClaimOf(config, until, rows[j]) == c;
      assert j != k;
    }
  }

  lemma {:induction false} BatchCloses(sys: System, config: W.Config, until: Time, rows: seq<Claimed>, calls: nat -> W.Call, k: nat)
    requires k <= |rows| && OnlyFrom(sys, config, until, rows, 0)
    ensures OnlyFrom(Run(sys, BatchSteps(config, until, rows[..k], calls)), config, until, rows, k)
  {
    if k == 0 {
      assert rows[..0] == [];
      assert Run(sys, []) == sys;
    } else {
      BatchCloses(sys, config, until, rows, calls, k - 1);
      var mid := Run(sys, BatchSteps(config, until, rows[..k - 1], calls));
      var steps := CallSteps(config, until, rows[k - 1], calls(k - 1));
      CallCloses(mid, config, until, rows[k - 1], calls(k - 1));
      NextClosed(mid, Run(mid, steps), config, until, rows, k - 1);
      MoreSteps(config, until, rows, calls, k - 1);
      RunConcat(sys, BatchSteps(config, until, rows[..k - 1], calls), steps);
    }
  }

  /** Every picked job has its row in the batch. */
  ghost predicate Lists(rows: seq<Claimed>, jobs: Table, now: Time, batch: nat) {
    forall id {:trigger IsPicked(jobs, now, batch, id)} :: IsPicked(jobs, now, batch, id) ==> AsClaimed(jobs, id) in rows
  }

  lemma BatchLists(jobs: Table, now: Time, batch: nat)
    ensures Lists(W.BatchOf(jobs, now, batch), jobs, now, batch)
  {
    var keys := Picked(jobs, now, batch);
    var rows := W.BatchOf(jobs, now, batch);
    W.PickedRows(jobs, now, batch);
    forall id | IsPicked(jobs, now, batch, id)
      ensures AsClaimed(jobs, id) in rows
    {
      var j :| 0 <= j < |keys| && keys[j] == KeyOf(jobs, id);
      assert rows[j] == AsClaimed(jobs, id);
    }
  }

  lemma ClaimOpensOnlyBatch(sys: System, config: W.Config, rows: seq<Claimed>)
    requires AllClosed(sys) && Lists(rows, JobsOf(sys), sys.clock, config.batch)
    ensures OnlyFrom(Next(sys, ClaimBatch(config.id, config.lease, config.batch)), config, sys.clock + config.lease, rows, 0)
  {
    var after := Next(sys, ClaimBatch(config.id, config.lease, config.batch));
    forall id, c | id in after.tracks && c in after.tracks[id].open
      ensures exists j :: 0 <= j < |rows| && rows[j].id == id && ClaimOf(config, sys.clock + config.lease, rows[j]) == c
    {
      assert IsPicked(JobsOf(sys), sys.clock, config.batch, id);
      var j :| 0 <= j < |rows| && rows[j] == AsClaimed(JobsOf(sys), id);
    }
  }

  lemma SweepKeepsOpen(sys: System, world: W.World)
    requires AllClosed(sys)
    ensures AllClosed(Run(sys, SweepSteps(world)))
  {
    if world.recoverFails {
      RunOne(sys, Advance(world.now));
    } else {
      RunTwo(sys, Advance(world.now), RecoverExpired);
    }
  }

  lemma ClaimStepsClose(swept: System, config: W.Config, world: W.World)
    requires AllClosed(swept) && swept.clock == world.now
    ensures AllClosed(Run(swept, ClaimSteps(swept, config, world)))
  {
    if world.claimFault.Strikes(|Picked(JobsOf(swept), world.now, config.batch)|) {
      StruckClaimFollows(swept, config, world);
    } else {
      var rows := W.BatchOf(JobsOf(swept), world.now, config.batch);
      BatchLists(JobsOf(swept), world.now, config.batch);
      TakenStepsClose(swept, config, world, rows);
    }
  }

  lemma WholeBatchCloses(claimed: System, config: W.Config, until: Time, rows: seq<Claimed>, calls: nat -> W.Call)
    requires OnlyFrom(claimed, config, until, rows, 0)
    ensures AllClosed(Run(claimed, BatchSteps(config, until, rows, calls)))
  {
    BatchCloses(claimed, config, until, rows, calls, |rows|);
    assert rows[..|rows|] == rows;
  }

  lemma TakenStepsClose(swept: System, config: W.Config, world: W.World, rows: seq<Claimed>)
    requires AllClosed(swept) && swept.clock == world.now && Lists(rows, JobsOf(swept), world.now, config.batch)
    ensures AllClosed(Run(swept, TakenSteps(config, world, rows)))
  {
    var claim := ClaimBatch(config.id, config.lease, config.batch);
    ClaimOpensOnlyBatch(swept, config, rows);
    RunOne(swept, claim);
    RunTaken(swept, config, world, rows);
    WholeBatchCloses(Next(swept, claim), config, world.now + config.lease, rows, world.calls);
  }

  /** A tick leaves no claim open, whatever failed in it. */
  lemma TickCloses(sys: System, config: W.Config, world: W.World)
    requires AllClosed(sys) && sys.clock <= world.now
    ensures AllClosed(Run(sys, TickSteps(sys, config, world)))
  {
    var swept := Run(sys, SweepSteps(world));
    SweepFollows(sys, world);
    SweepKeepsOpen(sys, world);
    ClaimStepsClose(swept, config, world);
    RunConcat(sys, SweepSteps(world), ClaimSteps(swept, config, world));
  }

  lemma EventCloses(sys: System, config: W.Config, event: Event)
    requires AllClosed(sys) && Smooth(sys, event)
    ensures AllClosed(Run(sys, EventSteps(sys, config, event)))
  {
    match event
    case Tick(world) => TickCloses(sys, config, world);
    case Arrive(id, kind, maxAttempts, availableAt) => RunOne(sys, Insert(id, kind, maxAttempts, availableAt));
  }

  /** Between the ticks of a loop no claim is open. */
  lemma {:induction false} LoopCloses(sys: System, config: W.Config, events: seq<Event>)
    requires AllClosed(sys) && AllSmooth(sys, config, events)
    ensures AllClosed(Run(sys, LoopSteps(sys, config, events)))
  {
    if events != [] {
      var init, last := events[..|events| - 1], events[|events| - 1];
      PrefixSmooth(sys, config, events);
      LoopCloses(sys, config, init);
      var mid := Run(sys, LoopSteps(sys, config, init));
      EventCloses(mid, config, last);
      RunConcat(sys, LoopSteps(sys, config, init), EventSteps(mid, config, last));
    }
  }

  /** Whatever a single worker's loop did since it started on an empty table, once a waiting job is due
      with k waiting jobs ordered before it, the next k/batch + 1 ticks claim it, provided the
      repository calls succeed, and whatever arrives between the ticks. */
  lemma SoloNoStarvation(start: Time, config: W.Config, past: seq<Event>, events: seq<Event>, id: Id)
    requires AllSmooth(Start(start), config, past) && config.batch >= 1
    requires var sys := Run(Start(start), LoopSteps(Start(start), config, past));
             && Waits(sys, id) && AllSmooth(sys, config, events)
             && Ticks(events) >= |AheadOf(sys, id)| / config.batch + 1
    ensures var sys := Run(Start(start), LoopSteps(Start(start), config, past));
            ClaimedWithin(sys, LoopSteps(sys, config, events), id)
  {
    var sys := Run(Start(start), LoopSteps(Start(start), config, past));
    LoopCloses(Start(start), config, past);
    LoopIsFair(sys, config, events);
    NoStarvation(sys, LoopSteps(sys, config, events), id, config.batch);
    UnclaimedIsClaimed(sys, LoopSteps(sys, config, events), id);
  }
}
