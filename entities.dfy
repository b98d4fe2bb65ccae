/**
 * The server entities the pages hold in their snapshots. Every field the pages read is
 * here; the rest of the server record is carried unread and is left out.
 */
module Entities {
  import opened Js
  import opened Views

  /**
   * A reported incident. `alertType` is the record's `type` field. `coords` is whatever
   * the server sent: usually a `[lat, lng]` array, possibly missing.
   */
  datatype Alert = Alert(
    id: string,
    alertType: string,
    status: string,
    priority: string,
    touristName: string,
    phone: string,
    location: string,
    coords: JsValue,
    assignedTeam: string,
    summary: string,
    timestamp: string)

  /** A response team. */
  datatype Team = Team(
    id: string,
    name: string,
    status: string,
    phone: string,
    location: string,
    specialization: string)

  /** The key the push channel's "updated" events are matched on. */
  function AlertId(a: Alert): string {
    a.id
  }

  function TeamId(t: Team): string {
    t.id
  }

  predicate IsActive(a: Alert) {
    a.status == "active"
  }

  predicate IsResponding(a: Alert) {
    a.status == "responding"
  }

  predicate IsResolved(a: Alert) {
    a.status == "resolved"
  }

  predicate IsUnresolved(a: Alert) {
    a.status != "resolved"
  }

  predicate TeamAvailable(t: Team) {
    t.status == "available"
  }

  predicate TeamResponding(t: Team) {
    t.status == "responding"
  }

  /** `alerts.filter(a => a.status !== 'resolved')`: what the emergency desk and the dashboard count as open. */
  function Unresolved(alerts: seq<Alert>): seq<Alert> {
    Filter(alerts, IsUnresolved)
  }
}
