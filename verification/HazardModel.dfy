/** Incidents, zones and the incident transition table. */
module HazardModel {
  import opened Basics

  datatype HazardType = Earthquake | Rainstorm | Landslide | DebrisFlow | Flood | OtherHazard(text: string)
  {
    predicate Valid() {
      !OtherHazard?
    }
  }

  datatype CommandLevel = Local | Regional | Joint | OtherLevel(text: string)
  {
    predicate Valid() {
      !OtherLevel?
    }
  }

  datatype IncidentStatus = Monitoring | Active | Stabilizing | Closed | Cancelled
  {
    predicate CanTransition(to: IncidentStatus) {
      match this
      case Monitoring => to.Active? || to.Cancelled?
      case Active => to.Stabilizing? || to.Cancelled?
      case Stabilizing => to.Active? || to.Closed?
      case Closed => false
      case Cancelled => false
    }
  }

  datatype Incident = Incident(
    regionId: Id, externalRef: string, hazardType: HazardType, title: string, severity: int,
    status: IncidentStatus, commandLevel: CommandLevel, summary: string, occurredAt: Time,
    activatedAt: Option<Time>, closedAt: Option<Time>, version: int, createdBy: Id,
    createdAt: Time, updatedAt: Time)
  {
    predicate Valid(now: Time) {
      && regionId != NO_ID
      && !Blank(externalRef)
      && hazardType.Valid()
      && !Blank(title)
      && 1 <= severity <= 5
      && commandLevel.Valid()
      && occurredAt != ZERO_TIME && occurredAt <= now + 5 * MINUTE
    }
  }

  datatype Zone = Zone(incidentId: Id, regionId: Id, name: string, riskLevel: int, population: int,
                       geometry: string, createdAt: Time)
  {
    predicate Valid() {
      && !Blank(name)
      && 1 <= riskLevel <= 5
      && 0 <= population
      && TrimSpace(geometry) != "" && TrimSpace(geometry)[0] == '{'
    }
  }
}
