/**
 * The emergency desk: the open-emergency cards and KPIs derived from `allAlerts` and
 * `allTeams`, the weak alert-to-team lookup by name, the status requests the desk's
 * buttons send, the coordinates check behind "Track Location", and the two snapshots
 * patched in place by `alert-updated` and `team-updated`.
 */
module Emergency {
  import opened Wrappers
  import opened Text
  import opened Js
  import opened Views
  import opened Store
  import opened Entities

  // ---------------------------------------------------------------------------------
  // Alert to team, by name.

  /** The position of the first team whose name includes `wanted`, or -1. */
  function AssignedTeamIndex(teams: seq<Team>, wanted: string): (i: int)
    ensures -1 <= i < |teams|
    ensures i == -1 <==> forall k :: 0 <= k < |teams| ==> !Contains(teams[k].name, wanted)
    ensures 0 <= i ==> Contains(teams[i].name, wanted)
                       && forall k :: 0 <= k < i ==> !Contains(teams[k].name, wanted)
    decreases |teams|
  {
    if |teams| == 0 then -1
    else if Contains(teams[0].name, wanted) then 0
    else
      var i := AssignedTeamIndex(teams[1..], wanted);
      if i == -1 then -1 else i + 1
  }

  /** `allTeams.find(team => team.name.includes(item.assignedTeam))`. */
  function FindTeam(teams: seq<Team>, wanted: string): Option<Team> {
    var i := AssignedTeamIndex(teams, wanted);
    if i == -1 then None else Some(teams[i])
  }

  /** The phone the "Call Team" button dials: the found team's, or "" when none matches. */
  function TeamPhone(teams: seq<Team>, wanted: string): (phone: string)
    ensures (forall k :: 0 <= k < |teams| ==> !Contains(teams[k].name, wanted)) ==> phone == ""
    ensures (exists k :: 0 <= k < |teams| && Contains(teams[k].name, wanted)) ==>
              phone == teams[AssignedTeamIndex(teams, wanted)].phone
  {
    match FindTeam(teams, wanted)
    case Some(t) => t.phone
    case None => ""
  }

  /** The lookup is by substring, so an exact name and an empty assignment both resolve. */
  lemma FindTeamByName(teams: seq<Team>, k: nat)
    requires k < |teams|
    ensures FindTeam(teams, teams[k].name).Some?
    ensures AssignedTeamIndex(teams, teams[k].name) <= k
    ensures FindTeam(teams, "") == Some(teams[0])
  {
    ContainsSelf(teams[k].name);
    ContainsEmpty(teams[0].name);
  }

  // ---------------------------------------------------------------------------------
  // Cards and KPIs.

  /** What an open emergency's card carries besides its text. */
  datatype EmergencyCard = EmergencyCard(
    alertId: string,
    priorityClass: string,
    teamPhone: string,
    statusClass: string,
    typeClass: string,
    coords: string,
    radioTeam: string)

  function CardFor(a: Alert, teams: seq<Team>): EmergencyCard {
    EmergencyCard(a.id, Lower(a.priority), TeamPhone(teams, a.assignedTeam),
                  Slug(a.status), Slug(a.alertType), ToJsString(a.coords), a.assignedTeam)
  }

  /** `renderEmergencyCards`: one card per alert that is not resolved, in list order. */
  function EmergencyCards(alerts: seq<Alert>, teams: seq<Team>): (r: seq<EmergencyCard>)
    ensures |r| == |Unresolved(alerts)|
    ensures forall k :: 0 <= k < |r| ==> r[k] == CardFor(Unresolved(alerts)[k], teams)
  {
    var open := Unresolved(alerts);
    seq(|open|, k requires 0 <= k < |open| => CardFor(open[k], teams))
  }

  /** Every card belongs to an alert of the list that is not resolved. */
  lemma CardsAreOpen(alerts: seq<Alert>, teams: seq<Team>, k: nat)
    requires k < |EmergencyCards(alerts, teams)|
    ensures exists j :: 0 <= j < |alerts| && alerts[j].status != "resolved"
                        && alerts[j].id == EmergencyCards(alerts, teams)[k].alertId
  {
    var open := Unresolved(alerts);
    assert open[k] in alerts;
    var j :| 0 <= j < |alerts| && alerts[j] == open[k];
    assert IsUnresolved(alerts[j]);
  }

  /** Every alert of the list that is not resolved has a card. */
  lemma OpenAlertsHaveCards(alerts: seq<Alert>, teams: seq<Team>, j: nat)
    requires j < |alerts| && alerts[j].status != "resolved"
    ensures exists k :: 0 <= k < |EmergencyCards(alerts, teams)|
                        && EmergencyCards(alerts, teams)[k].alertId == alerts[j].id
  {
    var open := Unresolved(alerts);
    assert IsUnresolved(alerts[j]);
    assert alerts[j] in open;
    var k :| 0 <= k < |open| && open[k] == alerts[j];
    assert EmergencyCards(alerts, teams)[k].alertId == alerts[j].id;
  }

  datatype DeskKpis = DeskKpis(activeEmergencies: nat, responseTeams: nat)

  /** `renderKPIs`: the number of alerts not resolved, and the number of teams. */
  function Kpis(alerts: seq<Alert>, teams: seq<Team>): (k: DeskKpis)
    ensures k.activeEmergencies == |EmergencyCards(alerts, teams)|
    ensures k.activeEmergencies <= |alerts|
    ensures k.responseTeams == |teams|
  {
    DeskKpis(Count(alerts, IsUnresolved), |teams|)
  }

  // ---------------------------------------------------------------------------------
  // Status requests.

  datatype TeamButton = Dispatch | Recall

  /** The team card offers "Dispatch" for an available team and "Recall" for any other. */
  function TeamButtonFor(t: Team): TeamButton {
    if t.status == "available" then Dispatch else Recall
  }

  /** The status a team button asks the server for. */
  function RequestedTeamStatus(b: TeamButton): (status: string)
    ensures status == "responding" || status == "available"
    ensures status == "responding" <==> b == Dispatch
    ensures status == "available" <==> b == Recall
  {
    match b
    case Dispatch => "responding"
    case Recall => "available"
  }

  /**
   * Team status is a two-state toggle: once the server confirms the request a team's
   * button sends, the team is available or responding and its card offers the other
   * button; a second confirmed request brings the first button back.
   */
  lemma TeamToggle(t: Team)
    ensures TeamButtonFor(t) == Dispatch <==> RequestedTeamStatus(TeamButtonFor(t)) == "responding"
    ensures var t1 := t.(status := RequestedTeamStatus(TeamButtonFor(t)));
            && (t1.status == "available" || t1.status == "responding")
            && TeamButtonFor(t1) != TeamButtonFor(t)
            && TeamButtonFor(t1.(status := RequestedTeamStatus(TeamButtonFor(t1)))) == TeamButtonFor(t)
  {
  }

  /** The dropdown as the page writes it: the "Update Status" prompt has no `value` attribute. */
  const StatusOptionsAsWritten: seq<SelectOption> := [
    SelectOption("Update Status", None),
    SelectOption("Responding", Some("responding")),
    SelectOption("Investigating", Some("investigating"))]

  /** The dropdown with the prompt carrying an empty value, so that choosing it sends nothing. */
  const StatusOptions: seq<SelectOption> := [
    SelectOption("Update Status", Some("")),
    SelectOption("Responding", Some("responding")),
    SelectOption("Investigating", Some("investigating"))]

  /** The dropdown's change handler: the selected value is requested when it is non-empty. */
  function DropdownRequest(options: seq<SelectOption>, selected: nat): Option<string>
    requires selected < |options|
  {
    var v := OptionValue(options[selected]);
    if v != "" then Some(v) else None
  }

  /**
   * As written, going back to the prompt after choosing a status fires the change handler
   * with the prompt's text as value, and "Update Status" is sent as the alert's status.
   */
  lemma PromptSendsItsText()
    ensures DropdownRequest(StatusOptionsAsWritten, 0) == Some("Update Status")
    ensures CycleStatus("Update Status") == false
  {
  }

  /** A lifecycle status an alert can hold. */
  predicate CycleStatus(s: string) {
    s == "active" || s == "responding" || s == "investigating" || s == "resolved"
  }

  /** With the prompt's value empty, the dropdown only ever requests a lifecycle status. */
  lemma DropdownRequestsLifecycleStatus(selected: nat)
    requires selected < |StatusOptions|
    ensures DropdownRequest(StatusOptions, selected).Some? ==> CycleStatus(DropdownRequest(StatusOptions, selected).value)
    ensures DropdownRequest(StatusOptions, selected).None? <==> selected == 0
  {
  }

  /** A request an emergency card sends: "Resolve", or a dropdown choice. */
  datatype AlertCommand = ResolveCommand | DropdownCommand(selected: nat)

  /**
   * The status an alert command requests, if any, given the card's dropdown options.
   * On the page as written every dropdown choice sends something, the prompt included;
   * with the corrected options every request is a lifecycle status.
   */
  function AlertCommandRequest(options: seq<SelectOption>, cmd: AlertCommand): (r: Option<string>)
    requires cmd.DropdownCommand? ==> cmd.selected < |options|
    ensures cmd.ResolveCommand? ==> r == Some("resolved")
    ensures options == StatusOptions && r.Some? ==> CycleStatus(r.value)
    ensures options == StatusOptions && cmd.DropdownCommand? ==> (r.None? <==> cmd.selected == 0)
    ensures options == StatusOptionsAsWritten && cmd.DropdownCommand? ==>
              r.Some? && (CycleStatus(r.value) <==> cmd.selected != 0)
  {
    match cmd
    case ResolveCommand => Some("resolved")
    case DropdownCommand(i) =>
      if options == StatusOptions then DropdownRequestsLifecycleStatus(i); DropdownRequest(options, i)
      else DropdownRequest(options, i)
  }

  // ---------------------------------------------------------------------------------
  // Track location.

  /**
   * The "Track Location" handler on the card's coordinates attribute (`String(coords)`):
   * nothing for "", "undefined" or "null"; otherwise `split(',')` destructured: the
   * latitude is the first comma-separated part and the longitude the second ("undefined"
   * when there is no comma); any further parts are ignored.
   */
  function TrackLocation(coords: string): (r: Option<(string, string)>)
    ensures r.None? <==> coords == "" || coords == "undefined" || coords == "null"
    ensures r.Some? ==> r.value.0 == Split(coords, ',')[0]
    ensures r.Some? ==> r.value.1 == (if |Split(coords, ',')| > 1 then Split(coords, ',')[1] else "undefined")
  {
    if coords != "" && coords != "undefined" && coords != "null" then
      var parts := Split(coords, ',');
      Some((parts[0], if |parts| > 1 then parts[1] else "undefined"))
    else None
  }

  /** A `[lat, lng]` pair of integers travels through the attribute and back unchanged. */
  lemma TrackLocationRoundTrip(lat: int, lng: int)
    ensures TrackLocation(ToJsString(Arr([Num(lat), Num(lng)]))) == Some((IntToString(lat), IntToString(lng)))
  {
    PairToString(lat, lng);
    var a, b := IntToString(lat), IntToString(lng);
    assert ',' !in a && ',' !in b;
    SplitPair(a, b, ',');
    assert a + "," + b == a + [','] + b;
    assert (a + "," + b)[|a|] == ',';
  }

  /** Missing coordinates never open the map. */
  lemma MissingCoordinatesRejected()
    ensures TrackLocation(ToJsString(Undefined)).None?
    ensures TrackLocation(ToJsString(Null)).None?
    ensures TrackLocation(ToJsString(Arr([]))).None?
  {
    assert ToJsString(Arr([])) == Join([], ",");
  }

  // ---------------------------------------------------------------------------------
  // The page state.

  /** The desk's alert and team snapshots, patched in place by the push channel. */
  class EmergencyDesk {
    var allAlerts: seq<Alert>
    var allTeams: seq<Team>

    constructor ()
      ensures allAlerts == [] && allTeams == []
    {
      allAlerts, allTeams := [], [];
    }

    /** `fetchData`: both snapshots arrive together. */
    method Load(alerts: seq<Alert>, teams: seq<Team>)
      modifies this
      ensures allAlerts == alerts && allTeams == teams
    {
      allAlerts, allTeams := alerts, teams;
    }

    /** `alert-updated`: the matching alert is replaced; an unknown id is dropped; teams are untouched. */
    method OnAlertUpdated(updated: Alert)
      modifies this
      ensures allAlerts == Updated(old(allAlerts), AlertId, updated)
      ensures allTeams == old(allTeams)
    {
      var i := FindIndex(allAlerts, AlertId, updated.id);
      if i != -1 {
        allAlerts := allAlerts[i := updated];
      }
    }

    /** `team-updated`: the matching team is replaced; an unknown id is dropped; alerts are untouched. */
    method OnTeamUpdated(updated: Team)
      modifies this
      ensures allTeams == Updated(old(allTeams), TeamId, updated)
      ensures allAlerts == old(allAlerts)
    {
      var i := FindIndex(allTeams, TeamId, updated.id);
      if i != -1 {
        allTeams := allTeams[i := updated];
      }
    }
  }
}
