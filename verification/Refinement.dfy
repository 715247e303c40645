/** Two-phase calls refine atomic ones: each committed call is compared with the same call executed in
    one piece, reading, preparing and committing on one database. */
module Refinement {
  import opened Basics
  import opened HazardModel
  import opened DispatchModel
  import opened EvacuationModel
  import opened Schema
  import opened Operations
  import opened Services
  import opened Evolution
  import opened Guards
  import opened Interleaving
  import opened LogIndependence

  /** A call in one piece. */
  function Atomic(db: Database, call: Call): Result<Database> {
    var op :- Read(db, call);
    Commit(db, op)
  }

  /** A deployment move presents the version its call read; other calls have nothing to present here. */
  predicate Current(f: InFlight) {
    f.op.MoveDeployment? ==>
      f.op.deploymentId in f.seen.deployments && f.seen.deployments[f.op.deploymentId].version == f.op.version
  }

  // ---- one commit ----------------------------------------------------------------------------

  lemma MoveComesFromItsCall(seen: Database, call: Call, op: Operation)
    requires Read(seen, call) == Success(op) && op.MoveDeployment?
    ensures call.command.TransitionDeployment? && op.deploymentId in seen.deployments
    ensures op.event == call.Event(Action.DeploymentTransition, op.deploymentId,
                                   DeploymentMove(seen.deployments[op.deploymentId].status, op.deploymentTarget))
  {
  }

  /** The source status an event names is the committed one exactly when the call read the version it presents. */
  lemma MovedEventSource(seen: Database, db: Database, call: Call, op: Operation)
    requires Read(seen, call) == Success(op) && op.MoveDeployment? && Evolves(seen, db) && Commit(db, op).Success?
    ensures op.deploymentId in seen.deployments && op.deploymentId in db.deployments
    ensures op.event.detail == DeploymentMove(db.deployments[op.deploymentId].status, op.deploymentTarget)
            <==> seen.deployments[op.deploymentId].version == op.version
  {
    MoveComesFromItsCall(seen, call, op);
    assert RowEvolves(seen, db, DeploymentRef(op.deploymentId));
  }

  /** Two moves that differ in their event's source only leave databases that differ in it only. */
  lemma MoveWithOtherSource(db: Database, op: Operation, again: Operation)
    requires op.MoveDeployment? && Commit(db, op).Success? && again.MoveDeployment? && SameButSource(again.event, op.event)
    requires again == MoveDeployment(op.deploymentId, op.version, op.deploymentTarget, op.now, again.event)
    ensures Commit(db, again).Success? && Similar(Commit(db, again).value, Commit(db, op).value)
    ensures Commit(db, again) == Commit(db, op) <==> again.event == op.event
  {
    MoveShape(db, op.deploymentId, op.version, op.deploymentTarget, op.now, op.event);
    MoveShape(db, op.deploymentId, op.version, op.deploymentTarget, op.now, again.event);
    CommitLogged(db, op);
    CommitLogged(db, again);
    SimilarAppend(db.audit, db.audit, again.event, op.event);
  }

  /** What one commit has to do with the same call in one piece on the database it commits on. */
  ghost predicate Refines(db: Database, f: InFlight, after: Database) {
    if StillTrue(db, f.call.command) then
      && Atomic(db, f.call).Success? && Similar(Atomic(db, f.call).value, after)
      && (Atomic(db, f.call) == Success(after) <==> Current(f))
    else Read(db, f.call).Failure?
  }

  lemma MoveRefines(db: Database, f: InFlight, after: Database)
    requires Ready(db, f) && Consistent(db) && Commit(db, f.op) == Success(after) && f.op.MoveDeployment?
    ensures Refines(db, f, after)
  {
    GuardsAtCommit(f.seen, db, f.call, f.op);
    MoveComesFromItsCall(f.seen, f.call, f.op);
    var again := Read(db, f.call).value;
    MoveComesFromItsCall(db, f.call, again);
    MovedEventSource(f.seen, db, f.call, f.op);
    MoveWithOtherSource(db, f.op, again);
  }

  lemma OtherRefines(db: Database, f: InFlight, after: Database)
    requires Ready(db, f) && Consistent(db) && Commit(db, f.op) == Success(after) && !f.op.MoveDeployment?
    ensures Refines(db, f, after)
  {
    GuardsAtCommit(f.seen, db, f.call, f.op);
  }

  /** A commit equals the call in one piece wherever StillTrue holds, up to the source status a
      deployment event names, and entirely exactly when the call was current; elsewhere the call in
      one piece is refused. */
  lemma CommitRefines(db: Database, f: InFlight, after: Database)
    requires Ready(db, f) && Consistent(db) && Commit(db, f.op) == Success(after)
    ensures Refines(db, f, after)
  {
    if f.op.MoveDeployment? {
      MoveRefines(db, f, after);
    } else {
      OtherRefines(db, f, after);
    }
  }

  // ---- the same on a similar database --------------------------------------------------------

  lemma AtomicSimilar(a: Database, b: Database, call: Call)
    requires Similar(a, b) && Atomic(b, call).Success?
    ensures Atomic(a, call).Success? && Similar(Atomic(a, call).value, Atomic(b, call).value)
    ensures Atomic(a, call) == Atomic(b, call) <==> a == b
  {
    ReadSameTables(a, b, call);
    CommitSimilar(a, b, Read(b, call).value);
  }

  // ---- whole runs ----------------------------------------------------------------------------

  /** A committed call again, in one piece where its guards still hold; otherwise only its transaction. */
  function Again(db: Database, f: InFlight): Result<Database> {
    if StillTrue(db, f.call.command) then Atomic(db, f.call) else Commit(db, f.op)
  }

  /** The committed calls, one after the other. */
  function Replay(db: Database, log: seq<InFlight>): Result<Database> {
    if log == [] then Success(db)
    else
      var before :- Replay(db, log[..|log| - 1]);
      Again(before, log[|log| - 1])
  }

  predicate AllCurrent(log: seq<InFlight>) {
    forall f :: f in log ==> Current(f)
  }

  lemma ReplayAppend(db: Database, log: seq<InFlight>, f: InFlight)
    requires Replay(db, log).Success?
    ensures Replay(db, log + [f]) == Again(Replay(db, log).value, f)
    ensures AllCurrent(log + [f]) <==> AllCurrent(log) && Current(f)
  {
    assert (log + [f])[..|log|] == log;
    assert forall g :: g in log + [f] <==> g in log || g == f;
  }

  /** A call in one piece only appends to the log. */
  lemma AtomicAppends(db: Database, call: Call)
    requires Atomic(db, call).Success?
    ensures db.audit <= Atomic(db, call).value.audit
  {
    CommitLogged(db, Read(db, call).value);
  }

  /** Databases whose logs begin alike were alike when the logs had the same length. */
  lemma SamePrefix(d: Database, db: Database, after: Database)
    requires Similar(d, db) && d.audit <= after.audit && db.audit <= after.audit
    ensures d == db
  {
    assert d.audit == after.audit[..|d.audit|] == db.audit;
  }

  lemma AtomicAgain(d: Database, db: Database, f: InFlight, after: Database)
    requires Similar(d, db) && Ready(db, f) && Consistent(db) && Commit(db, f.op) == Success(after) && StillTrue(db, f.call.command)
    ensures Atomic(d, f.call).Success? && Similar(Atomic(d, f.call).value, after)
    ensures Atomic(d, f.call) == Success(after) <==> d == db && Current(f)
  {
    CommitRefines(db, f, after);
    AtomicSimilar(d, db, f.call);
    SimilarTransitive(Atomic(d, f.call).value, Atomic(db, f.call).value, after);
    if Atomic(d, f.call) == Success(after) {
      AtomicAppends(d, f.call);
      CommitLogged(db, f.op);
      SamePrefix(d, db, after);
    }
  }

  /** Only moves can be out of date, and their guards always hold again. */
  lemma StaleIsCurrent(db: Database, f: InFlight)
    requires Ready(db, f) && !StillTrue(db, f.call.command)
    ensures Current(f)
  {
    if f.op.MoveDeployment? {
      MoveComesFromItsCall(f.seen, f.call, f.op);
    }
  }

  lemma AgainSimilar(d: Database, db: Database, f: InFlight, after: Database)
    requires Similar(d, db) && Ready(db, f) && Consistent(db) && Commit(db, f.op) == Success(after)
    ensures Again(d, f).Success? && Similar(Again(d, f).value, after)
    ensures Again(d, f) == Success(after) <==> d == db && Current(f)
  {
    StillTrueSameTables(d, db, f.call.command);
    if StillTrue(db, f.call.command) {
      AtomicAgain(d, db, f, after);
    } else {
      StaleIsCurrent(db, f);
      CommitSimilar(d, db, f.op);
    }
  }

  /** What the replay of a run's log ends in. */
  ghost predicate Replayed(regions: map<Id, bool>, sys: System) {
    var replay := Replay(Empty(regions), sys.log);
    && replay.Success? && Similar(replay.value, sys.db)
    && (replay == Success(sys.db) <==> AllCurrent(sys.log))
  }

  lemma FinishReplayed(regions: map<Id, bool>, sys: System, f: InFlight, after: Database, next: System)
    requires Replayed(regions, sys) && Ready(sys.db, f) && Consistent(sys.db) && Commit(sys.db, f.op) == Success(after)
    requires next.db == after && next.log == sys.log + [f]
    ensures Replayed(regions, next)
  {
    AgainSimilar(Replay(Empty(regions), sys.log).value, sys.db, f, after);
    ReplayAppend(Empty(regions), sys.log, f);
  }

  /** In any interleaving, the committed calls replayed in commit order, each in one piece wherever its
      guards still hold at its commit, all succeed and end in the same tables and the same log up to
      the source statuses of deployment events; the database is the very same one exactly when every
      move presented the version it had read. */
  lemma {:induction false} CallsAreAtomic(regions: map<Id, bool>, turns: seq<Turn>)
    ensures Replayed(regions, Run(regions, turns))
  {
    if turns != [] {
      var sys, turn := Run(regions, turns[..|turns| - 1]), turns[|turns| - 1];
      CallsAreAtomic(regions, turns[..|turns| - 1]);
      RunInvariant(regions, turns[..|turns| - 1]);
      TurnEffect(sys, turn);
      if Commits(sys, turn) {
        FinishReplayed(regions, sys, sys.inflight[turn.ticket], Next(sys, turn).db, Next(sys, turn));
      }
    }
  }

  // ---- runs of calls in one piece only -------------------------------------------------------

  /** The logged calls, one after the other, every one of them in one piece. */
  function AtomicReplay(db: Database, log: seq<InFlight>): Result<Database> {
    if log == [] then Success(db)
    else
      var before :- AtomicReplay(db, log[..|log| - 1]);
      Atomic(before, log[|log| - 1].call)
  }

  /** Every logged call found its unchecked guards still true when it committed. */
  predicate HeldThroughout(db: Database, log: seq<InFlight>) {
    log == []
    || (HeldThroughout(db, log[..|log| - 1]) && Replay(db, log[..|log| - 1]).Success?
        && StillTrue(Replay(db, log[..|log| - 1]).value, log[|log| - 1].call.command))
  }

  lemma WhollyAppend(db: Database, log: seq<InFlight>, f: InFlight)
    ensures AtomicReplay(db, log + [f])
            == if AtomicReplay(db, log).Success? then Atomic(AtomicReplay(db, log).value, f.call) else AtomicReplay(db, log)
    ensures HeldThroughout(db, log + [f])
            <==> HeldThroughout(db, log) && Replay(db, log).Success? && StillTrue(Replay(db, log).value, f.call.command)
  {
    assert (log + [f])[..|log|] == log;
  }

  lemma FinishWholly(regions: map<Id, bool>, sys: System, f: InFlight, after: Database)
    requires Replayed(regions, sys) && Ready(sys.db, f) && Consistent(sys.db) && Commit(sys.db, f.op) == Success(after)
    requires AtomicReplay(Empty(regions), sys.log).Success? <==> HeldThroughout(Empty(regions), sys.log)
    requires HeldThroughout(Empty(regions), sys.log) ==> AtomicReplay(Empty(regions), sys.log) == Replay(Empty(regions), sys.log)
    ensures AtomicReplay(Empty(regions), sys.log + [f]).Success? <==> HeldThroughout(Empty(regions), sys.log + [f])
    ensures HeldThroughout(Empty(regions), sys.log + [f]) ==>
              AtomicReplay(Empty(regions), sys.log + [f]) == Replay(Empty(regions), sys.log + [f])
  {
    var d := Replay(Empty(regions), sys.log).value;
    WhollyAppend(Empty(regions), sys.log, f);
    ReplayAppend(Empty(regions), sys.log, f);
    StillTrueSameTables(d, sys.db, f.call.command);
    CommitRefines(sys.db, f, after);
    ReadSameTables(d, sys.db, f.call);
    AgainSimilar(d, sys.db, f, after);
  }

  /** Replaying every logged call in one piece succeeds exactly when each found its unchecked guards
      still true at its commit, and then is the replay above. */
  lemma {:induction false} WhollyAtomicExactlyWhen(regions: map<Id, bool>, turns: seq<Turn>)
    ensures var log := Run(regions, turns).log;
            && (AtomicReplay(Empty(regions), log).Success? <==> HeldThroughout(Empty(regions), log))
            && (HeldThroughout(Empty(regions), log) ==> AtomicReplay(Empty(regions), log) == Replay(Empty(regions), log))
  {
    if turns != [] {
      var sys, turn := Run(regions, turns[..|turns| - 1]), turns[|turns| - 1];
      WhollyAtomicExactlyWhen(regions, turns[..|turns| - 1]);
      CallsAreAtomic(regions, turns[..|turns| - 1]);
      RunInvariant(regions, turns[..|turns| - 1]);
      TurnEffect(sys, turn);
      if Commits(sys, turn) {
        FinishWholly(regions, sys, sys.inflight[turn.ticket], Next(sys, turn).db);
      }
    }
  }

  /** The calls of a run, each in one piece in commit order, lead to the very database of the run if
      and only if each found its unchecked guards still true and every move was current. */
  lemma AtomicRunsExactlyWhen(regions: map<Id, bool>, turns: seq<Turn>)
    ensures var sys := Run(regions, turns);
            AtomicReplay(Empty(regions), sys.log) == Success(sys.db)
            <==> HeldThroughout(Empty(regions), sys.log) && AllCurrent(sys.log)
  {
    CallsAreAtomic(regions, turns);
    WhollyAtomicExactlyWhen(regions, turns);
  }

  /** Of the calls that check everything again, every one is always atomic. */
  lemma {:induction false} RecheckedRunsHold(db: Database, log: seq<InFlight>)
    requires Replay(db, log).Success? && forall f :: f in log ==> Rechecked(f.call.command)
    ensures HeldThroughout(db, log)
  {
    if log != [] {
      assert log[|log| - 1] in log && forall f :: f in log[..|log| - 1] ==> f in log;
      RecheckedRunsHold(db, log[..|log| - 1]);
    }
  }
}
