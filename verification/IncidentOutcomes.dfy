/** What activating and moving an incident answers and leaves, column by column. */
module IncidentOutcomes {
  import opened Basics
  import opened Counting
  import opened HazardModel
  import opened DispatchModel
  import opened EvacuationModel
  import opened Schema
  import opened Rows
  import opened Operations
  import IncidentRepository
  import EvacuationRepository

  // ---- zones ---------------------------------------------------------------------------------

  predicate SoundZone(z: Zone) {
    1 <= z.riskLevel <= 5 && 0 <= z.population
  }

  /** The n-th zone may go in: its row is sound, and its id and its name within the incident are new. */
  predicate ZoneFits(before: map<Id, Zone>, i: Id, zones: seq<Zone>, ids: seq<Id>, n: nat)
    requires n < |zones| == |ids|
  {
    && SoundZone(zones[n]) && ids[n] !in before
    && (forall z :: z in before ==> before[z].incidentId != i || before[z].name != zones[n].name)
    && (forall k :: 0 <= k < n ==> ids[k] != ids[n] && zones[k].name != zones[n].name)
  }

  ghost predicate ZonesFit(before: map<Id, Zone>, i: Id, zones: seq<Zone>, ids: seq<Id>, n: nat)
    requires n <= |zones| == |ids|
  {
    forall k {:trigger ZoneFits(before, i, zones, ids, k)} :: 0 <= k < n ==> ZoneFits(before, i, zones, ids, k)
  }

  /** The table with the first n zones, each a zone of incident i. */
  ghost predicate ZonesAdded(before: map<Id, Zone>, after: map<Id, Zone>, i: Id, zones: seq<Zone>, ids: seq<Id>, n: nat)
    requires n <= |zones| == |ids|
  {
    && (forall z :: z in after <==> z in before || z in ids[..n])
    && (forall z :: z in before ==> z in after && after[z] == before[z])
    && (forall k :: 0 <= k < n ==> ids[k] in after && after[ids[k]] == zones[k].(incidentId := i))
  }

  lemma NextZoneFits(before: map<Id, Zone>, rows: map<Id, Zone>, i: Id, zones: seq<Zone>, ids: seq<Id>, n: nat)
    requires n < |zones| == |ids| && ZonesFit(before, i, zones, ids, n) && ZonesAdded(before, rows, i, zones, ids, n)
    ensures IncidentRepository.ZoneInsertable(rows, ids[n], IncidentRepository.ZoneRow(zones, n, i)) <==> ZoneFits(before, i, zones, ids, n)
  {
    if IncidentRepository.ZoneInsertable(rows, ids[n], IncidentRepository.ZoneRow(zones, n, i)) {
      forall k | 0 <= k < n
        ensures ids[k] != ids[n] && zones[k].name != zones[n].name
      {
        assert ids[k] in rows && rows[ids[k]].incidentId == i;
      }
      forall z | z in before
        ensures before[z].incidentId != i || before[z].name != zones[n].name
      {
        assert z in rows;
      }
    }
    if ZoneFits(before, i, zones, ids, n) {
      forall z | z in rows
        ensures rows[z].incidentId != i || rows[z].name != zones[n].name
      {
        if z in ids[..n] {
          var k :| 0 <= k < n && ids[k] == z;
        }
      }
    }
  }

  lemma ZoneAdded(before: map<Id, Zone>, rows: map<Id, Zone>, i: Id, zones: seq<Zone>, ids: seq<Id>, n: nat)
    requires n < |zones| == |ids| && ZoneFits(before, i, zones, ids, n) && ZonesAdded(before, rows, i, zones, ids, n)
    ensures ZonesAdded(before, rows[ids[n] := IncidentRepository.ZoneRow(zones, n, i)], i, zones, ids, n + 1)
  {
    assert ids[..n + 1] == ids[..n] + [ids[n]];
  }

  /** The answer of the first n inserts, and the table they leave. */
  ghost predicate InsertAnswers(r: Result<map<Id, Zone>>, before: map<Id, Zone>, i: Id, zones: seq<Zone>, ids: seq<Id>, n: nat)
    requires n <= |zones| == |ids|
  {
    (r.Success? <==> ZonesFit(before, i, zones, ids, n)) && (r.Success? ==> ZonesAdded(before, r.value, i, zones, ids, n))
  }

  lemma InsertOneMore(before: map<Id, Zone>, rows: map<Id, Zone>, i: Id, zones: seq<Zone>, ids: seq<Id>, n: nat)
    requires n < |zones| == |ids| && ZonesFit(before, i, zones, ids, n) && ZonesAdded(before, rows, i, zones, ids, n)
    requires IncidentRepository.InsertZones(before, i, zones, ids, n) == Success(rows)
    ensures InsertAnswers(IncidentRepository.InsertZones(before, i, zones, ids, n + 1), before, i, zones, ids, n + 1)
  {
    NextZoneFits(before, rows, i, zones, ids, n);
    if ZoneFits(before, i, zones, ids, n) {
      ZoneAdded(before, rows, i, zones, ids, n);
    }
  }

  lemma InsertStopped(before: map<Id, Zone>, i: Id, zones: seq<Zone>, ids: seq<Id>, n: nat)
    requires n < |zones| == |ids| && !ZonesFit(before, i, zones, ids, n)
    requires IncidentRepository.InsertZones(before, i, zones, ids, n).Failure?
    ensures InsertAnswers(IncidentRepository.InsertZones(before, i, zones, ids, n + 1), before, i, zones, ids, n + 1)
  {
    IncidentRepository.InsertZonesStops(before, i, zones, ids, n, n + 1);
  }

  /** All zones go in exactly when each one fits. */
  lemma {:induction false} InsertZonesExactlyWhen(before: map<Id, Zone>, i: Id, zones: seq<Zone>, ids: seq<Id>, n: nat)
    requires n <= |zones| == |ids|
    ensures InsertAnswers(IncidentRepository.InsertZones(before, i, zones, ids, n), before, i, zones, ids, n)
  {
    if n > 0 {
      InsertZonesExactlyWhen(before, i, zones, ids, n - 1);
      if ZonesFit(before, i, zones, ids, n - 1) {
        InsertOneMore(before, IncidentRepository.InsertZones(before, i, zones, ids, n - 1).value, i, zones, ids, n - 1);
      } else {
        InsertStopped(before, i, zones, ids, n - 1);
      }
    }
  }

  // ---- activation ----------------------------------------------------------------------------

  predicate NewOutboxId(db: Database, id: Id) {
    forall o :: o in db.outbox ==> o.id != id
  }

  predicate NewIncident(db: Database, id: Id, i: Incident) {
    && id !in db.incidents && !i.hazardType.OtherHazard? && 1 <= i.severity <= 5 && !i.commandLevel.OtherLevel?
    && forall x :: x in db.incidents ==> db.incidents[x].regionId != i.regionId || db.incidents[x].externalRef != i.externalRef
  }

  lemma OutboxAppends(db: Database, after: Database, row: OutboxRow)
    requires after.outbox == db.outbox
    ensures AppendOutbox(after, row).Success? <==> NewOutboxId(db, row.id)
    ensures AppendOutbox(after, row).Success? ==> AppendOutbox(after, row).value == after.(outbox := db.outbox + [row])
  {
  }

  lemma ActivationShape(db: Database, op: Operation)
    requires op.InsertIncident?
    ensures var rows := IncidentRepository.InsertZones(db.zones, op.incidentId, op.zones, op.zoneIds, |op.zones|);
            var row := op.incident.(closedAt := None);
            if NewIncident(db, op.incidentId, op.incident) && rows.Success? then
              var logged := AppendAudit(db.(incidents := db.incidents[op.incidentId := row], zones := rows.value), op.event);
              Commit(db, op) == if logged.Success? then AppendOutbox(logged.value, OutboxRow(op.outboxId, op.incidentId, op.event.at))
                                else Failure(logged.error)
            else Commit(db, op).Failure?
  {
  }

  /** An incident goes in with all its zones, its event and its announcement, exactly when each fits. */
  lemma ActivationExactlyWhen(db: Database, op: Operation)
    requires op.InsertIncident? && |op.zones| == |op.zoneIds|
    ensures Commit(db, op).Success? <==>
              && NewIncident(db, op.incidentId, op.incident) && ZonesFit(db.zones, op.incidentId, op.zones, op.zoneIds, |op.zones|)
              && NewEventId(db, op.event.id) && NewOutboxId(db, op.outboxId)
    ensures Commit(db, op).Success? ==>
              var after := Commit(db, op).value;
              && after == db.(incidents := after.incidents, zones := after.zones, audit := db.audit + [op.event],
                              outbox := db.outbox + [OutboxRow(op.outboxId, op.incidentId, op.event.at)])
              && Wrote(db.incidents, after.incidents, op.incidentId, op.incident.(closedAt := None))
              && ZonesAdded(db.zones, after.zones, op.incidentId, op.zones, op.zoneIds, |op.zones|)
  {
    ActivationShape(db, op);
    InsertZonesExactlyWhen(db.zones, op.incidentId, op.zones, op.zoneIds, |op.zones|);
    var rows := IncidentRepository.InsertZones(db.zones, op.incidentId, op.zones, op.zoneIds, |op.zones|);
    if NewIncident(db, op.incidentId, op.incident) && rows.Success? {
      var inserted := db.(incidents := db.incidents[op.incidentId := op.incident.(closedAt := None)], zones := rows.value);
      AppendsExactlyWhen(db, inserted, op.event);
      OutboxAppends(db, inserted.(audit := db.audit + [op.event]), OutboxRow(op.outboxId, op.incidentId, op.event.at));
    }
  }

  // ---- moving an incident --------------------------------------------------------------------

  /** The incident's row after a move: the summary is kept exactly when the new one is empty. */
  function Moved(i: Incident, op: Operation): Incident
    requires op.MoveIncident?
  {
    i.(status := op.incidentTarget, summary := if op.summary != "" then op.summary else i.summary, closedAt := op.closedAt,
       version := i.version + 1, updatedAt := op.event.at)
  }

  lemma AfterTransitionLogged(db: Database, op: Operation) returns (after: Database)
    requires op.MoveIncident? && op.incidentId in db.incidents
    ensures after == IncidentRepository.AfterTransition(db, op.incidentId, op.incidentTarget, op.summary, op.closedAt, op.event.at)
    ensures after.audit == db.audit && after == db.(incidents := after.incidents)
    ensures Wrote(db.incidents, after.incidents, op.incidentId, Moved(db.incidents[op.incidentId], op))
  {
    after := IncidentRepository.AfterTransition(db, op.incidentId, op.incidentTarget, op.summary, op.closedAt, op.event.at);
  }

  lemma MoveAppends(db: Database, op: Operation)
    requires op.MoveIncident?
    ensures if op.incidentId in db.incidents && db.incidents[op.incidentId].version == op.version then
              Commit(db, op) == AppendAudit(IncidentRepository.AfterTransition(db, op.incidentId, op.incidentTarget, op.summary,
                                                                               op.closedAt, op.event.at), op.event)
            else Commit(db, op).Failure?
  {
  }

  /** A move commits on the version alone. */
  lemma IncidentMoveExactlyWhen(db: Database, op: Operation)
    requires op.MoveIncident?
    ensures Commit(db, op).Success? <==>
              op.incidentId in db.incidents && db.incidents[op.incidentId].version == op.version && NewEventId(db, op.event.id)
    ensures Commit(db, op).Success? ==>
              var after := Commit(db, op).value;
              && after == db.(incidents := after.incidents, audit := db.audit + [op.event])
              && Wrote(db.incidents, after.incidents, op.incidentId, Moved(db.incidents[op.incidentId], op))
  {
    MoveAppends(db, op);
    if op.incidentId in db.incidents {
      var after := AfterTransitionLogged(db, op);
      AppendsExactlyWhen(db, after, op.event);
    }
  }

  /** Open operations: a plan between submission and its end, or a deployment that has not ended. */
  lemma OpenDependenciesExactlyWhen(db: Database, i: Id)
    ensures IncidentRepository.HasOpenDependencies(db, i)
            <==> (exists p :: p in db.plans && db.plans[p].incidentId == i
                              && (db.plans[p].status == Submitted || db.plans[p].status == PlanApproved || db.plans[p].status == Executing))
                 || (exists d :: d in db.deployments && db.deployments[d].incidentId == i
                                 && db.deployments[d].status != Released && db.deployments[d].status != DeploymentCancelled)
  {
    CountZero(db.plans, IncidentRepository.OpenPlanOf(i));
    CountZero(db.deployments, IncidentRepository.ActiveInIncident(i));
  }
}
