/** Filling a request: it takes as many allocations in a row as it asks for units, and no more. */
module AllocationRuns {
  import opened Basics
  import opened HazardModel
  import opened DispatchModel
  import opened Schema
  import opened Operations
  import opened Services
  import opened Rows
  import opened Refinement
  import opened DispatchOutcomes
  import DispatchInvariant
  import DispatchRepository

  /** One unit to be sent, with the ids its allocation will generate. */
  datatype Order = Order(unitId: Id, deploymentId: Id, eventId: Id)

  /** The call that sends a unit, presenting the versions of the moment. */
  function AllocationCall(db: Database, actor: Actor, r: Id, o: Order, now: Time): Call
    requires r in db.requests && o.unitId in db.units
  {
    Call(actor, Command.Allocate(r, db.requests[r].version, o.unitId, db.units[o.unitId].version, o.deploymentId), now, o.eventId)
  }

  function AllocateOne(db: Database, actor: Actor, r: Id, o: Order, now: Time): Result<Database> {
    if r !in db.requests then Failure(RequestNotFound)
    else if o.unitId !in db.units then Failure(UnitNotFound)
    else Atomic(db, AllocationCall(db, actor, r, o, now))
  }

  function AllocateAll(db: Database, actor: Actor, r: Id, orders: seq<Order>, now: Time): Result<Database> {
    if orders == [] then Success(db)
    else
      var before :- AllocateAll(db, actor, r, orders[..|orders| - 1], now);
      AllocateOne(before, actor, r, orders[|orders| - 1], now)
  }

  predicate MayAllocate(actor: Actor) {
    actor.userId != NO_ID && actor.role == Commander
  }

  /** The request is open for allocation at that time. */
  predicate Wanted(db: Database, r: Id, now: Time) {
    && r in db.requests && (db.requests[r].status == Approved || db.requests[r].status == PartiallyAllocated)
    && now < db.requests[r].neededBy && db.requests[r].incidentId in db.incidents
  }

  /** The unit of an order is free and meets the request, and the order's ids are new. */
  predicate Suits(db: Database, r: Id, o: Order)
    requires r in db.requests && db.requests[r].incidentId in db.incidents
  {
    && o.unitId in db.units && db.units[o.unitId].status == Available
    && db.units[o.unitId].regionId == db.incidents[db.requests[r].incidentId].regionId
    && db.units[o.unitId].kind == db.requests[r].kind && db.requests[r].capability in db.units[o.unitId].capabilities
    && o.deploymentId !in db.deployments && NewEventId(db, o.eventId)
  }

  predicate Apart(a: Order, b: Order) {
    a.unitId != b.unitId && a.deploymentId != b.deploymentId && a.eventId != b.eventId
  }

  predicate AllApart(orders: seq<Order>) {
    forall i, j :: 0 <= i < j < |orders| ==> Apart(orders[i], orders[j])
  }

  lemma AllocateReads(db: Database, actor: Actor, r: Id, o: Order, now: Time) returns (op: Operation)
    requires MayAllocate(actor) && Wanted(db, r, now) && Suits(db, r, o)
    ensures Read(db, AllocationCall(db, actor, r, o, now)) == Success(op) && op.AllocateUnit? && op.requestId == r
    ensures op.version == db.requests[r].version && op.unitId == o.unitId && op.unitVersion == db.units[o.unitId].version
    ensures op.deploymentId == o.deploymentId && op.now == now && op.event.id == o.eventId
  {
    op := ReadAllocate(db, AllocationCall(db, actor, r, o, now)).value;
  }

  /** One allocation leaves the request wanting exactly while units are missing, and suits what suited before. */
  lemma AllocateOneMore(db: Database, actor: Actor, r: Id, o: Order, now: Time) returns (op: Operation, after: Database)
    requires DispatchInvariant.Invariant(db) && MayAllocate(actor) && Wanted(db, r, now) && Suits(db, r, o)
    ensures AllocateOne(db, actor, r, o, now) == Success(after) && op.AllocateUnit? && op.event.id == o.eventId
    ensures op.requestId == r && op.unitId == o.unitId && op.deploymentId == o.deploymentId && op.now == now
    ensures |ActiveFor(after, r)| == |ActiveFor(db, r)| + 1
    ensures Allocates(db, op, after, if |ActiveFor(after, r)| >= db.requests[r].quantity then Allocated else PartiallyAllocated)
    ensures DispatchInvariant.Invariant(after)
  {
    op := AllocateReads(db, actor, r, o, now);
    AllocationExactlyWhen(db, op);
    after := Commit(db, op).value;
    AllocationOutcome(db, op, after);
    DispatchInvariant.AllocateUnitKeeps(db, r, op.version, op.unitId, op.unitVersion, op.deploymentId, op.event.actorId, now, op.event);
  }

  lemma StillSuits(db: Database, op: Operation, after: Database, status: RequestStatus, o: Order)
    requires op.AllocateUnit? && op.requestId in db.requests && op.unitId in db.units && Allocates(db, op, after, status)
    requires db.requests[op.requestId].incidentId in db.incidents && Suits(db, op.requestId, o)
    requires Apart(Order(op.unitId, op.deploymentId, op.event.id), o)
    ensures Suits(after, op.requestId, o)
  {
  }

  lemma StillWanted(db: Database, op: Operation, after: Database, status: RequestStatus, now: Time)
    requires op.AllocateUnit? && op.requestId in db.requests && op.unitId in db.units && Allocates(db, op, after, status)
    requires Wanted(db, op.requestId, now)
    ensures after.incidents == db.incidents && op.requestId in after.requests
    ensures after.requests[op.requestId].incidentId == db.requests[op.requestId].incidentId
    ensures after.requests[op.requestId].quantity == db.requests[op.requestId].quantity
    ensures after.requests[op.requestId].status == status
    ensures status == PartiallyAllocated ==> Wanted(after, op.requestId, now)
  {
  }

  /** How far a request has been filled: the first n orders have been carried out. */
  ghost predicate Filled(db: Database, after: Database, r: Id, n: nat, quantity: int) {
    && DispatchInvariant.Invariant(after) && r in after.requests && after.requests[r].quantity == quantity
    && |ActiveFor(after, r)| == |ActiveFor(db, r)| + n
    && (n > 0 ==> after.requests[r].status == if |ActiveFor(after, r)| >= quantity then Allocated else PartiallyAllocated)
  }

  lemma Progress(db: Database, actor: Actor, r: Id, orders: seq<Order>, now: Time, n: nat, before: Database) returns (after: Database)
    requires n < |orders| && AllApart(orders) && MayAllocate(actor) && r in db.requests && Wanted(before, r, now)
    requires Filled(db, before, r, n, db.requests[r].quantity)
    requires forall i :: n <= i < |orders| ==> Suits(before, r, orders[i])
    ensures AllocateOne(before, actor, r, orders[n], now) == Success(after)
    ensures Filled(db, after, r, n + 1, db.requests[r].quantity) && after.incidents == before.incidents
    ensures after.requests[r].incidentId == before.requests[r].incidentId
    ensures |ActiveFor(after, r)| < db.requests[r].quantity ==> Wanted(after, r, now)
    ensures forall i :: n < i < |orders| ==> after.requests[r].incidentId in after.incidents && Suits(after, r, orders[i])
  {
    var op;
    op, after := AllocateOneMore(before, actor, r, orders[n], now);
    var status := if |ActiveFor(after, r)| >= before.requests[r].quantity then Allocated else PartiallyAllocated;
    StillWanted(before, op, after, status, now);
    forall i | n < i < |orders|
      ensures Suits(after, r, orders[i])
    {
      assert Apart(orders[n], orders[i]);
      StillSuits(before, op, after, status, orders[i]);
    }
  }

  lemma {:induction false} FillsStepwise(db: Database, actor: Actor, r: Id, orders: seq<Order>, now: Time, n: nat) returns (after: Database)
    requires n <= |orders| && AllApart(orders) && MayAllocate(actor) && DispatchInvariant.Invariant(db) && Wanted(db, r, now)
    requires forall i :: 0 <= i < |orders| ==> Suits(db, r, orders[i])
    requires |ActiveFor(db, r)| + |orders| <= db.requests[r].quantity
    ensures AllocateAll(db, actor, r, orders[..n], now) == Success(after) && Filled(db, after, r, n, db.requests[r].quantity)
    ensures |ActiveFor(after, r)| < db.requests[r].quantity ==> Wanted(after, r, now)
    ensures forall i :: n <= i < |orders| ==> after.requests[r].incidentId in after.incidents && Suits(after, r, orders[i])
  {
    if n == 0 {
      after := db;
    } else {
      var before := FillsStepwise(db, actor, r, orders, now, n - 1);
      assert orders[..n][..n - 1] == orders[..n - 1];
      after := Progress(db, actor, r, orders, now, n - 1, before);
    }
  }

  lemma ApprovedHasNone(db: Database, r: Id)
    requires DispatchInvariant.Invariant(db) && r in db.requests && db.requests[r].status == Approved
    ensures |ActiveFor(db, r)| == 0
  {
    assert DispatchInvariant.RequestAgrees(db.deployments, r, db.requests[r]);
    ActiveForIsCounted(db, r);
  }

  /** An approved request of quantity q takes any q suitable units one after the other: it is partially
      allocated after each of the first q - 1 allocations and allocated after the last, and then takes no more. */
  lemma RequestTakesItsQuantity(db: Database, actor: Actor, r: Id, orders: seq<Order>, now: Time, n: nat) returns (after: Database)
    requires DispatchInvariant.Invariant(db) && MayAllocate(actor) && Wanted(db, r, now) && db.requests[r].status == Approved
    requires AllApart(orders) && forall i :: 0 <= i < |orders| ==> Suits(db, r, orders[i])
    requires |orders| == db.requests[r].quantity && 1 <= n <= |orders|
    ensures AllocateAll(db, actor, r, orders[..n], now) == Success(after) && r in after.requests
    ensures |ActiveFor(after, r)| == n
    ensures after.requests[r].status == if n < db.requests[r].quantity then PartiallyAllocated else Allocated
    ensures n == db.requests[r].quantity ==>
              forall call: Call :: call.command.Allocate? && call.command.requestId == r ==> Atomic(after, call).Failure?
  {
    ApprovedHasNone(db, r);
    after := FillsStepwise(db, actor, r, orders, now, n);
  }
}
