/** The audit log replays every incident's history. */
module IncidentTrail {
  import opened Basics
  import opened HazardModel
  import opened Schema
  import opened IncidentRepository

  datatype Move = Move(from: IncidentStatus, to: IncidentStatus)

  predicate IsMoveOf(e: Event, id: Id) {
    e.action.IncidentTransition? && e.subject == Row(id) && e.detail.IncidentMove?
  }

  /** The incident's transitions among the first n events, oldest first. */
  function Moves(audit: seq<Event>, id: Id): seq<Move>
  {
    if audit == [] then []
    else
      var before, last := Moves(audit[..|audit| - 1], id), audit[|audit| - 1];
      if IsMoveOf(last, id) then before + [Move(last.detail.incidentFrom, last.detail.incidentTo)] else before
  }

  /** A connected path of table edges from one status to another. */
  predicate Path(moves: seq<Move>, start: IncidentStatus, end: IncidentStatus) {
    if moves == [] then start == end
    else
      var last := moves[|moves| - 1];
      last.to == end && last.from.CanTransition(last.to) && Path(moves[..|moves| - 1], start, last.from)
  }

  /** Replaying the log yields the row: its transitions lead from active to its status, its version
      counts them, and it is dated closed exactly when it is closed. */
  ghost predicate IncidentAgrees(audit: seq<Event>, id: Id, incident: Incident) {
    && Path(Moves(audit, id), IncidentStatus.Active, incident.status)
    && incident.version == 1 + |Moves(audit, id)|
    && (incident.closedAt.Some? <==> incident.status.Closed?)
  }

  ghost predicate Invariant(db: Database) {
    && (forall i {:trigger IncidentAgrees(db.audit, i, db.incidents[i])} ::
          i in db.incidents ==> IncidentAgrees(db.audit, i, db.incidents[i]))
    && (forall i {:trigger Moves(db.audit, i)} :: i !in db.incidents ==> Moves(db.audit, i) == [])
  }

  lemma MovesAppend(audit: seq<Event>, e: Event, id: Id)
    ensures Moves(audit + [e], id)
            == Moves(audit, id) + if IsMoveOf(e, id) then [Move(e.detail.incidentFrom, e.detail.incidentTo)] else []
  {
    assert (audit + [e])[..|audit|] == audit;
  }

  lemma PathAppend(moves: seq<Move>, start: IncidentStatus, from: IncidentStatus, to: IncidentStatus)
    requires Path(moves, start, from) && from.CanTransition(to)
    ensures Path(moves + [Move(from, to)], start, to)
  {
    assert (moves + [Move(from, to)])[..|moves|] == moves;
  }

  /** A trail from active only leaves the two open statuses, so nothing follows a closing or a
      cancellation, and an incident is closed from stabilizing, in two moves at least. */
  lemma {:induction false} TrailStaysOpen(moves: seq<Move>, end: IncidentStatus)
    requires Path(moves, IncidentStatus.Active, end)
    ensures forall m :: m in moves ==> m.from.Active? || m.from.Stabilizing?
    ensures end.Closed? ==> |moves| >= 2 && moves[|moves| - 1].from.Stabilizing?
    ensures !end.Monitoring?
  {
    if moves != [] {
      var n := |moves| - 1;
      TrailStaysOpen(moves[..n], moves[n].from);
      assert forall m :: m in moves <==> m in moves[..n] || m == moves[n];
    }
  }

  /** Any other operation leaves every trail alone. */
  lemma OtherEventKeeps(before: Database, after: Database, e: Event)
    requires Invariant(before) && !e.action.IncidentTransition?
    requires after.incidents == before.incidents && after.audit == before.audit + [e]
    ensures Invariant(after)
  {
    forall i
      ensures Moves(after.audit, i) == Moves(before.audit, i)
    {
      MovesAppend(before.audit, e, i);
    }
    forall i | i in after.incidents
      ensures IncidentAgrees(after.audit, i, after.incidents[i])
    {
      assert IncidentAgrees(before.audit, i, before.incidents[i]);
    }
  }

  lemma SilentKeeps(before: Database, after: Database)
    requires Invariant(before) && after.incidents == before.incidents && after.audit == before.audit
    ensures Invariant(after)
  {
    forall i | i in after.incidents
      ensures IncidentAgrees(after.audit, i, after.incidents[i])
    {
      assert IncidentAgrees(before.audit, i, before.incidents[i]);
    }
  }

  lemma ActivateIncidentKeeps(db: Database, id: Id, incident: Incident, zones: seq<Zone>, zoneIds: seq<Id>, outboxId: Id, event: Event)
    requires Invariant(db) && ActivateIncident(db, id, incident, zones, zoneIds, outboxId, event).Success?
    requires !event.action.IncidentTransition? && incident.status.Active? && incident.version == 1
    ensures Invariant(ActivateIncident(db, id, incident, zones, zoneIds, outboxId, event).value)
  {
    var after := ActivateIncident(db, id, incident, zones, zoneIds, outboxId, event).value;
    forall i
      ensures Moves(after.audit, i) == Moves(db.audit, i)
    {
      MovesAppend(db.audit, event, i);
    }
    forall i | i in after.incidents
      ensures IncidentAgrees(after.audit, i, after.incidents[i])
    {
      assert i != id ==> IncidentAgrees(db.audit, i, db.incidents[i]);
      assert i == id ==> Moves(db.audit, i) == [];
    }
  }

  /** The commit checks only the version; the trail stays a path because the event's source status
      is the committed one. */
  lemma TransitionIncidentKeeps(db: Database, id: Id, version: int, target: IncidentStatus, summary: string,
                                closedAt: Option<Time>, event: Event)
    requires Invariant(db) && TransitionIncident(db, id, version, target, summary, closedAt, event).Success?
    requires event.action.IncidentTransition? && event.subject == Row(id)
    requires event.detail == IncidentMove(db.incidents[id].status, target)
    requires db.incidents[id].status.CanTransition(target)
    requires closedAt.Some? <==> target.Closed?
    ensures Invariant(TransitionIncident(db, id, version, target, summary, closedAt, event).value)
  {
    var after := TransitionIncident(db, id, version, target, summary, closedAt, event).value;
    forall i
      ensures Moves(after.audit, i) == Moves(db.audit, i) + if i == id then [Move(db.incidents[id].status, target)] else []
    {
      MovesAppend(db.audit, event, i);
    }
    forall i | i in after.incidents
      ensures IncidentAgrees(after.audit, i, after.incidents[i])
    {
      assert IncidentAgrees(db.audit, i, db.incidents[i]);
      if i == id {
        PathAppend(Moves(db.audit, id), IncidentStatus.Active, db.incidents[id].status, target);
      }
    }
  }
}
