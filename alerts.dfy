/**
 * The alerts page: the master list `alertsData`, kept up to date by `alert-updated`
 * pushes; the status, priority and free-text filters over it; the KPI strip; the primary
 * action each card offers; the advance-status cycle; and the CSV export.
 */
module Alerts {
  import opened Wrappers
  import opened Text
  import opened Views
  import opened Store
  import opened Entities
  import Csv

  // ---------------------------------------------------------------------------------
  // Filtering.

  /** The three controls: status and priority selections ("all" for none) and the search box. */
  datatype Criteria = Criteria(status: string, priority: string, search: string)

  /** No filter selected and an empty search box. */
  const NoCriteria := Criteria("all", "all", "")

  predicate StatusSelected(a: Alert, selected: string) {
    Lower(a.status) == selected
  }

  predicate PrioritySelected(a: Alert, selected: string) {
    a.priority == selected
  }

  /** The lower-cased term occurs in the lower-cased tourist name, location or id. */
  predicate SearchHit(a: Alert, term: string) {
    Contains(Lower(a.touristName), term) || Contains(Lower(a.location), term) || Contains(Lower(a.id), term)
  }

  /** An alert meets every criterion that is selected. */
  predicate Matches(a: Alert, c: Criteria) {
    && (c.status == "all" || StatusSelected(a, c.status))
    && (c.priority == "all" || PrioritySelected(a, c.priority))
    && (Lower(c.search) == "" || SearchHit(a, Lower(c.search)))
  }

  /** The three filter steps, and the single-pass reading, as predicates over alerts. */
  function StatusStep(c: Criteria): Alert -> bool {
    a => StatusSelected(a, c.status)
  }

  function PriorityStep(c: Criteria): Alert -> bool {
    a => PrioritySelected(a, c.priority)
  }

  function SearchStep(c: Criteria): Alert -> bool {
    a => SearchHit(a, Lower(c.search))
  }

  function MatchesAll(c: Criteria): Alert -> bool {
    a => Matches(a, c)
  }

  /** `applyFilters`: the status filter, then the priority filter, then the search. */
  function ApplyFilters(alerts: seq<Alert>, c: Criteria): seq<Alert> {
    var byStatus := FilterIf(alerts, c.status != "all", StatusStep(c));
    var byPriority := FilterIf(byStatus, c.priority != "all", PriorityStep(c));
    FilterIf(byPriority, Lower(c.search) != "", SearchStep(c))
  }

  /** The status and priority criteria together, each satisfied when not selected. */
  function StatusAndPriority(c: Criteria): Alert -> bool {
    a => (c.status == "all" || StatusSelected(a, c.status)) && (c.priority == "all" || PrioritySelected(a, c.priority))
  }

  lemma {:induction false} FirstTwoSteps(alerts: seq<Alert>, c: Criteria)
    ensures FilterIf(FilterIf(alerts, c.status != "all", StatusStep(c)), c.priority != "all", PriorityStep(c))
            == Filter(alerts, StatusAndPriority(c))
  {
    var gS := (a: Alert) => c.status == "all" || StatusSelected(a, c.status);
    var gP := (a: Alert) => c.priority == "all" || PrioritySelected(a, c.priority);
    var byStatus := FilterIf(alerts, c.status != "all", StatusStep(c));
    assert byStatus == Filter(alerts, gS) by {
      FilterIfIsFilter(alerts, c.status != "all", StatusStep(c), gS);
    }
    assert FilterIf(byStatus, c.priority != "all", PriorityStep(c)) == Filter(byStatus, gP) by {
      FilterIfIsFilter(byStatus, c.priority != "all", PriorityStep(c), gP);
    }
    FilterFuse(alerts, gS, gP, StatusAndPriority(c));
  }

  /** The three staged filters select exactly the alerts that meet every criterion, in order. */
  lemma ApplyFiltersIsSinglePass(alerts: seq<Alert>, c: Criteria)
    ensures ApplyFilters(alerts, c) == Filter(alerts, MatchesAll(c))
  {
    var term := Lower(c.search);
    var gQ := (a: Alert) => term == "" || SearchHit(a, term);
    var byPriority := Filter(alerts, StatusAndPriority(c));
    FirstTwoSteps(alerts, c);
    assert ApplyFilters(alerts, c) == Filter(byPriority, gQ) by {
      FilterIfIsFilter(byPriority, term != "", SearchStep(c), gQ);
    }
    FilterFuse(alerts, StatusAndPriority(c), gQ, MatchesAll(c));
  }

  /**
   * What the filtered list holds: every kept alert meets every selected criterion, every
   * alert meeting them is kept, and the kept alerts keep their order.
   */
  lemma ApplyFiltersMeaning(alerts: seq<Alert>, c: Criteria)
    ensures forall k :: 0 <= k < |ApplyFilters(alerts, c)| ==>
              var a := ApplyFilters(alerts, c)[k];
              && (c.status != "all" ==> Lower(a.status) == c.status)
              && (c.priority != "all" ==> a.priority == c.priority)
              && (Lower(c.search) != "" ==> SearchHit(a, Lower(c.search)))
    ensures forall k :: 0 <= k < |alerts| && Matches(alerts[k], c) ==> alerts[k] in ApplyFilters(alerts, c)
    ensures IsSubsequence(ApplyFilters(alerts, c), alerts)
  {
    ApplyFiltersIsSinglePass(alerts, c);
    FilterIsSubsequence(alerts, MatchesAll(c));
  }

  /** With nothing selected the page shows the whole list, in its order. */
  lemma NoCriteriaShowsAll(alerts: seq<Alert>)
    ensures ApplyFilters(alerts, NoCriteria) == alerts
  {
    assert Lower("") == "";
  }

  // ---------------------------------------------------------------------------------
  // KPI strip.

  datatype AlertKpis = AlertKpis(total: nat, active: nat, responding: nat, resolved: nat)

  /** `renderKPIs`: the list length and the exact-status counts. */
  function Kpis(data: seq<Alert>): (k: AlertKpis)
    ensures k.total == |data|
    ensures k.active == Count(data, IsActive)
    ensures k.responding == Count(data, IsResponding)
    ensures k.resolved == Count(data, IsResolved)
    ensures k.active + k.responding + k.resolved <= k.total
  {
    CountDisjoint3(data, IsActive, IsResponding, IsResolved);
    AlertKpis(|data|, Count(data, IsActive), Count(data, IsResponding), Count(data, IsResolved))
  }

  /** Each status KPI is the number of alerts whose status is exactly that word. */
  lemma KpisCountExactStatus(data: seq<Alert>)
    ensures Kpis(data).active == |set i: nat | i < |data| && data[i].status == "active"|
    ensures Kpis(data).responding == |set i: nat | i < |data| && data[i].status == "responding"|
    ensures Kpis(data).resolved == |set i: nat | i < |data| && data[i].status == "resolved"|
  {
    CountIsPositions(data, IsActive);
    assert Positions(data, IsActive) == set i: nat | i < |data| && data[i].status == "active";
    CountIsPositions(data, IsResponding);
    assert Positions(data, IsResponding) == set i: nat | i < |data| && data[i].status == "responding";
    CountIsPositions(data, IsResolved);
    assert Positions(data, IsResolved) == set i: nat | i < |data| && data[i].status == "resolved";
  }

  /**
   * The "Active" KPI counts exact matches, while the status filter lower-cases first, so
   * the filtered "active" list never has fewer alerts than the KPI reports.
   */
  lemma ActiveKpiWithinFilter(data: seq<Alert>)
    ensures Kpis(data).active <= |ApplyFilters(data, Criteria("active", "all", ""))|
  {
    var c := Criteria("active", "all", "");
    ApplyFiltersIsSinglePass(data, c);
    assert Lower("") == "";
    assert Lower("active") == "active";
    CountMonotone(data, IsActive, MatchesAll(c));
  }

  // ---------------------------------------------------------------------------------
  // The card's primary action and the advance-status cycle.

  datatype PrimaryAction =
    | ResolvedDisabled   // a disabled "Resolved" button
    | EmergencyResponse  // go to the emergency desk
    | UpdateStatus       // advance the status

  /** `getPrimaryActionButton`. */
  function PrimaryActionFor(a: Alert): (r: PrimaryAction)
    ensures r == ResolvedDisabled <==> IsResolved(a)
    ensures r == EmergencyResponse <==> !IsResolved(a) && (a.alertType == "SOS" || a.alertType == "Medical Emergency")
  {
    if a.status == "resolved" then ResolvedDisabled
    else if a.alertType == "SOS" || a.alertType == "Medical Emergency" then EmergencyResponse
    else UpdateStatus
  }

  /** Position in the lifecycle: active 0, responding 1, investigating 2, anything else 3. */
  function CycleRank(status: string): nat {
    var s := Lower(status);
    if s == "active" then 0
    else if s == "responding" then 1
    else if s == "investigating" then 2
    else 3
  }

  /**
   * The `statusCycle` lookup with its `|| 'resolved'` default: the successor in
   * active, responding, investigating, resolved, with every other status going to resolved.
   */
  function NextStatus(status: string): (next: string)
    ensures next == "responding" || next == "investigating" || next == "resolved"
    ensures CycleRank(next) == if CycleRank(status) < 3 then CycleRank(status) + 1 else 3
  {
    var s := Lower(status);
    assert Lower("responding") == "responding";
    assert Lower("investigating") == "investigating";
    assert Lower("resolved") == "resolved";
    if s == "active" then "responding"
    else if s == "responding" then "investigating"
    else if s == "investigating" then "resolved"
    else "resolved"
  }

  /** From any status, at most three advances reach resolved, and resolved then stays put. */
  lemma AdvanceReachesResolved(status: string)
    ensures NextStatus(NextStatus(NextStatus(status))) == "resolved"
    ensures NextStatus("resolved") == "resolved"
  {
    var n1 := NextStatus(status);
    var n2 := NextStatus(n1);
    var n3 := NextStatus(n2);
    assert CycleRank(n3) == 3;
    assert Lower("responding") == "responding";
    assert Lower("investigating") == "investigating";
  }

  /**
   * The status request the "Update Status" click sends for the card with id `id`: none
   * when the alert is exactly "resolved", the next status in the cycle otherwise. (When
   * no alert has that id the page throws before sending anything.)
   */
  function UpdateStatusRequest(alerts: seq<Alert>, id: string): (r: Option<string>)
    ensures r.Some? <==> exists k :: 0 <= k < |alerts| && alerts[k].id == id
                                     && alerts[IndexOf(alerts, AlertId, id)].status != "resolved"
    ensures r.Some? ==> r.value == NextStatus(alerts[IndexOf(alerts, AlertId, id)].status)
  {
    var i := IndexOf(alerts, AlertId, id);
    if i == -1 then None
    else if alerts[i].status == "resolved" then None
    else Some(NextStatus(alerts[i].status))
  }

  /**
   * The card's button and the click agree: a card showing "Update Status" always sends a
   * request, and one showing the disabled "Resolved" button never does.
   */
  lemma PrimaryActionAgreesWithClick(alerts: seq<Alert>, k: nat)
    requires k < |alerts| && IndexOf(alerts, AlertId, alerts[k].id) == k
    ensures PrimaryActionFor(alerts[k]) == UpdateStatus ==> UpdateStatusRequest(alerts, alerts[k].id).Some?
    ensures PrimaryActionFor(alerts[k]) == ResolvedDisabled <==> UpdateStatusRequest(alerts, alerts[k].id) == None
  {
  }

  // ---------------------------------------------------------------------------------
  // The page state.

  /** The page's master list, replaced on load and patched by `alert-updated`. */
  class AlertBoard {
    var alertsData: seq<Alert>

    constructor ()
      ensures alertsData == []
    {
      alertsData := [];
    }

    /** `initialLoad`: the fetched snapshot becomes the list. */
    method Load(snapshot: seq<Alert>)
      modifies this
      ensures alertsData == snapshot
    {
      alertsData := snapshot;
    }

    /**
     * The `alert-updated` handler: the first alert with the pushed alert's id is replaced
     * by it; an unknown id changes nothing and triggers no re-render.
     */
    method OnAlertUpdated(updated: Alert) returns (rerendered: bool)
      modifies this
      ensures alertsData == Updated(old(alertsData), AlertId, updated)
      ensures rerendered <==> exists k :: 0 <= k < |old(alertsData)| && old(alertsData)[k].id == updated.id
    {
      var index := FindIndex(alertsData, AlertId, updated.id);
      if index != -1 {
        alertsData := alertsData[index := updated];
        rerendered := true;
      } else {
        rerendered := false;
      }
    }
  }

  // ---------------------------------------------------------------------------------
  // CSV export.

  const AlertHeaders: seq<string> :=
    ["ID", "Type", "Status", "Priority", "Tourist", "Phone", "Location", "Assigned Team", "Summary", "Timestamp"]

  /** The cells of one alert's row, in header order, before quoting. */
  function AlertCells(a: Alert): (r: seq<string>)
    ensures |r| == |AlertHeaders|
  {
    [a.id, a.alertType, a.status, a.priority, a.touristName, a.phone, a.location, a.assignedTeam, a.summary, a.timestamp]
  }

  function AlertRecords(alerts: seq<Alert>): (r: seq<seq<string>>)
    ensures |r| == |alerts|
    ensures forall k :: 0 <= k < |alerts| ==> r[k] == AlertCells(alerts[k])
  {
    seq(|alerts|, k requires 0 <= k < |alerts| => AlertCells(alerts[k]))
  }

  /** `exportToCSV`: the header line, then one row per alert in list order. */
  function ExportCsv(alerts: seq<Alert>): string {
    Csv.Document(AlertHeaders, AlertRecords(alerts))
  }

  /**
   * Reading the export back gives the header line, then for each alert, in order, its
   * ten fields exactly as they stand in the alert.
   */
  lemma ExportCsvRoundTrip(alerts: seq<Alert>)
    requires |alerts| >= 1
    ensures Csv.ReadRecords(ExportCsv(alerts)) == Some([AlertHeaders] + AlertRecords(alerts))
  {
    AlertHeadersPlain();
    Csv.DocumentRoundTrip(AlertHeaders, AlertRecords(alerts));
  }

  /** No alert header needs quoting. */
  lemma AlertHeadersPlain()
    ensures Csv.PlainHeaders(AlertHeaders)
  {
    Csv.WordIsPlain("ID");
    Csv.WordIsPlain("Type");
    Csv.WordIsPlain("Status");
    Csv.WordIsPlain("Priority");
    Csv.WordIsPlain("Tourist");
    Csv.WordIsPlain("Phone");
    Csv.WordIsPlain("Location");
    Csv.WordIsPlain("Assigned Team");
    Csv.WordIsPlain("Summary");
    Csv.WordIsPlain("Timestamp");
  }
}
