/**
 * The dashboard: the live-emergency list, the KPI counters, the available-team list, the
 * elapsed-time text and the notification action text.
 */
module Dashboard {
  import opened Text
  import opened Views
  import opened Entities
  import Emergency

  // ---------------------------------------------------------------------------------
  // Live emergencies.

  /** An alert the dashboard shows live: critical or high priority, and not resolved. */
  predicate IsLive(a: Alert) {
    (a.priority == "Critical" || a.priority == "High") && a.status != "resolved"
  }

  /**
   * `renderLiveEmergencies`: the first two live alerts, in list order (fewer when there are
   * fewer); the "N ACTIVE" badge counts these, not all live alerts.
   */
  function LiveEmergencies(alerts: seq<Alert>): (r: seq<Alert>)
    ensures |r| <= 2
    ensures |r| == (if Count(alerts, IsLive) < 2 then Count(alerts, IsLive) else 2)
    ensures forall k :: 0 <= k < |r| ==> IsLive(r[k]) && r[k] in alerts
  {
    Take(Filter(alerts, IsLive), 2)
  }

  /**
   * The live list keeps list order and skips no live alert before the ones it shows: it
   * is the start of the list of all live alerts, which is a subsequence of the alerts.
   */
  lemma LiveEmergenciesAreFirst(alerts: seq<Alert>)
    ensures LiveEmergencies(alerts) == Filter(alerts, IsLive)[..|LiveEmergencies(alerts)|]
    ensures IsSubsequence(LiveEmergencies(alerts), alerts)
    ensures Count(alerts, IsLive) >= 2 ==> |LiveEmergencies(alerts)| == 2
  {
    FilterIsSubsequence(alerts, IsLive);
    TakeOfSubsequence(Filter(alerts, IsLive), alerts, 2);
  }

  /** Every live emergency is open, so the live list never outnumbers the active KPI. */
  lemma LiveWithinActive(alerts: seq<Alert>, teams: seq<Team>)
    ensures |LiveEmergencies(alerts)| <= Kpis(alerts, teams).activeEmergencies
  {
    CountMonotone(alerts, IsLive, IsUnresolved);
  }

  /** `"Lost Tourist"` is shown as `"Tourist Missing"`; every other type as it is. */
  function DisplayType(alertType: string): (r: string)
    ensures alertType == "Lost Tourist" ==> r == "Tourist Missing"
    ensures alertType != "Lost Tourist" ==> r == alertType
  {
    if alertType == "Lost Tourist" then "Tourist Missing" else alertType
  }

  /** The type's CSS class: the displayed type lower-cased, each space a '-'. */
  function TypeClass(alertType: string): string {
    Slug(DisplayType(alertType))
  }

  /** The renamed type gets the class of its display name, and every class is a normal slug. */
  lemma TypeClassOfDisplayName(alertType: string)
    ensures TypeClass("Lost Tourist") == "tourist-missing"
    ensures alertType != "Lost Tourist" ==> TypeClass(alertType) == Slug(alertType)
    ensures ' ' !in TypeClass(alertType)
    ensures TypeClass(TypeClass(alertType)) == TypeClass(alertType)
  {
    LostTouristClass();
    SlugIsNormal(DisplayType(alertType));
    ClassIsNotLostTourist(TypeClass(alertType));
  }

  /** A lost tourist is classed as a missing tourist. */
  lemma LostTouristClass()
    ensures TypeClass("Lost Tourist") == "tourist-missing"
  {
    var r := Slug("Tourist Missing");
    assert |r| == 15;
    forall i | 0 <= i < 15
      ensures r[i] == "tourist-missing"[i]
    {
    }
  }

  /** A class has no space, so it is never the renamed type itself. */
  lemma ClassIsNotLostTourist(c: string)
    requires ' ' !in c
    ensures c != "Lost Tourist"
  {
    assert "Lost Tourist"[4] == ' ';
  }

  // ---------------------------------------------------------------------------------
  // KPIs.

  datatype DashboardKpis = DashboardKpis(activeEmergencies: nat, availableTeams: nat, totalTeams: nat, respondingTeams: nat)

  /** `renderKPIs`: open alerts, and the teams that are available, in all, and responding. */
  function Kpis(alerts: seq<Alert>, teams: seq<Team>): (k: DashboardKpis)
    ensures k.activeEmergencies == Count(alerts, IsUnresolved)
    ensures k.availableTeams == Count(teams, TeamAvailable)
    ensures k.respondingTeams == Count(teams, TeamResponding)
    ensures k.activeEmergencies <= |alerts|
    ensures k.totalTeams == |teams|
    ensures k.availableTeams + k.respondingTeams <= k.totalTeams
  {
    CountDisjoint2(teams, TeamAvailable, TeamResponding);
    DashboardKpis(Count(alerts, IsUnresolved), Count(teams, TeamAvailable), |teams|, Count(teams, TeamResponding))
  }

  /** The KPIs count alerts not exactly resolved, and teams exactly available or responding. */
  lemma KpisCountExactStatus(alerts: seq<Alert>, teams: seq<Team>)
    ensures Kpis(alerts, teams).activeEmergencies == |set i: nat | i < |alerts| && alerts[i].status != "resolved"|
    ensures Kpis(alerts, teams).availableTeams == |set i: nat | i < |teams| && teams[i].status == "available"|
    ensures Kpis(alerts, teams).respondingTeams == |set i: nat | i < |teams| && teams[i].status == "responding"|
  {
    CountIsPositions(alerts, IsUnresolved);
    assert Positions(alerts, IsUnresolved) == set i: nat | i < |alerts| && alerts[i].status != "resolved";
    CountIsPositions(teams, TeamAvailable);
    assert Positions(teams, TeamAvailable) == set i: nat | i < |teams| && teams[i].status == "available";
    CountIsPositions(teams, TeamResponding);
    assert Positions(teams, TeamResponding) == set i: nat | i < |teams| && teams[i].status == "responding";
  }

  /** The dashboard and the emergency desk count the same open emergencies. */
  lemma ActiveAgreesWithDesk(alerts: seq<Alert>, teams: seq<Team>)
    ensures Kpis(alerts, teams).activeEmergencies == Emergency.Kpis(alerts, teams).activeEmergencies
  {
  }

  // ---------------------------------------------------------------------------------
  // Available teams.

  /** `renderAvailableTeams`: the count of every available team, and the first four of them listed. */
  function AvailableTeams(teams: seq<Team>): (r: (nat, seq<Team>))
    ensures r.0 == Count(teams, TeamAvailable)
    ensures r.0 == Kpis([], teams).availableTeams
    ensures |r.1| <= 4 && |r.1| <= r.0
    ensures |r.1| == (if r.0 < 4 then r.0 else 4)
    ensures forall k :: 0 <= k < |r.1| ==> TeamAvailable(r.1[k]) && r.1[k] in teams
  {
    var available := Filter(teams, TeamAvailable);
    (|available|, Take(available, 4))
  }

  /** The listed teams are the first available ones in list order, and all are listed when there are at most four. */
  lemma AvailableTeamsListed(teams: seq<Team>)
    ensures AvailableTeams(teams).1 == Filter(teams, TeamAvailable)[..|AvailableTeams(teams).1|]
    ensures IsSubsequence(AvailableTeams(teams).1, teams)
    ensures AvailableTeams(teams).0 <= 4 ==> AvailableTeams(teams).1 == Filter(teams, TeamAvailable)
  {
    FilterIsSubsequence(teams, TeamAvailable);
    TakeOfSubsequence(Filter(teams, TeamAvailable), teams, 4);
  }

  // ---------------------------------------------------------------------------------
  // Elapsed time.

  datatype Elapsed = MinutesAgo(minutes: int) | SecondsAgo(seconds: int)

  /**
   * `timeSince` on the elapsed milliseconds: whole seconds are `ms / 1000` rounded down;
   * more than sixty of them read as whole minutes rounded down, otherwise as seconds.
   */
  function Since(elapsedMs: int): (e: Elapsed)
    ensures e.MinutesAgo? <==> elapsedMs / 1000 > 60
    ensures e.MinutesAgo? ==> e.minutes >= 1 && e.minutes * 60 <= elapsedMs / 1000 < e.minutes * 60 + 60
    ensures e.SecondsAgo? ==> e.seconds == elapsedMs / 1000 && e.seconds * 1000 <= elapsedMs < e.seconds * 1000 + 1000
  {
    var seconds := elapsedMs / 1000;
    if seconds > 60 then MinutesAgo(seconds / 60) else SecondsAgo(seconds)
  }

  function Render(e: Elapsed): string {
    match e
    case MinutesAgo(m) => IntToString(m) + " min ago"
    case SecondsAgo(s) => IntToString(s) + " sec ago"
  }

  function TimeSince(elapsedMs: int): string {
    Render(Since(elapsedMs))
  }

  /** The text reads back as the count it shows, followed by its unit. */
  lemma TimeSinceReadsBack(elapsedMs: int)
    requires elapsedMs >= 0
    ensures var t := TimeSince(elapsedMs);
            var n := |t| - 8;
            && n >= 1
            && (t[n..] == " min ago" || t[n..] == " sec ago")
            && (forall k :: 0 <= k < n ==> IsDigit(t[k]))
            && DigitsValue(t[..n]) == (match Since(elapsedMs) case MinutesAgo(m) => m case SecondsAgo(s) => s)
  {
    var e := Since(elapsedMs);
    var count: nat := match e case MinutesAgo(m) => m case SecondsAgo(s) => s;
    var t := TimeSince(elapsedMs);
    assert t[..|t| - 8] == NatToString(count);
    NatToStringRoundTrip(count);
  }

  /** Sixty seconds still read as seconds; the minute reading starts after them. */
  lemma TimeSinceBoundary()
    ensures TimeSince(60000) == "60 sec ago"
    ensures TimeSince(60999) == "60 sec ago"
    ensures TimeSince(61000) == "1 min ago"
    ensures TimeSince(120000) == "2 min ago"
  {
    SixtySeconds(60000);
    SixtySeconds(60999);
    WholeMinutes(61000, 1);
    WholeMinutes(120000, 2);
  }

  /** Any time within the sixtieth second reads "60 sec ago". */
  lemma SixtySeconds(elapsedMs: int)
    requires 60000 <= elapsedMs < 61000
    ensures TimeSince(elapsedMs) == "60 sec ago"
  {
    assert Since(elapsedMs) == SecondsAgo(60);
    assert NatToString(60) == NatToString(6) + [DigitChar(0)];
    assert IntToString(60) == "60";
  }

  /** A time in minute `m` (one to nine) reads as that digit and "min ago". */
  lemma WholeMinutes(elapsedMs: int, m: int)
    requires 1 <= m <= 9 && 61000 <= elapsedMs && elapsedMs / 60000 == m
    ensures TimeSince(elapsedMs) == [DigitChar(m)] + " min ago"
  {
    assert Since(elapsedMs) == MinutesAgo(m);
    assert IntToString(m) == [DigitChar(m)];
  }

  // ---------------------------------------------------------------------------------
  // Notifications.

  /** The action button of a notification, chosen by its lower-cased type. */
  function ActionText(notificationType: string): (r: string)
    ensures Lower(notificationType) == "weather" ==> r == "Send Weather Advisory"
    ensures Lower(notificationType) == "capacity" ==> r == "Deploy Crowd Control"
    ensures Lower(notificationType) == "system" ==> r == "Technical Support"
    ensures r == "Take Action" <==> Lower(notificationType) !in {"weather", "capacity", "system"}
  {
    var t := Lower(notificationType);
    if t == "weather" then "Send Weather Advisory"
    else if t == "capacity" then "Deploy Crowd Control"
    else if t == "system" then "Technical Support"
    else "Take Action"
  }

  /** The choice ignores case. */
  lemma ActionTextIgnoresCase(notificationType: string)
    ensures ActionText(Lower(notificationType)) == ActionText(notificationType)
    ensures ActionText("Weather") == "Send Weather Advisory"
  {
    LowerIdempotent(notificationType);
    assert Lower("Weather") == "weather";
  }
}
