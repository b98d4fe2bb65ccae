/**
 * The analytics page: the performance class of a team's success rate, the choice of what
 * the export button writes for the active tab, and the CSV it writes from the fetched
 * records.
 */
module Analytics {
  import opened Wrappers
  import opened Text
  import opened Js
  import Csv

  // ---------------------------------------------------------------------------------
  // Performance class.

  datatype Performance = Excellent | Good | Average

  /**
   * The class of a success rate: 95 and above is excellent, 90 and above good, anything
   * else average. A missing or non-numeric rate (`None`) fails both comparisons.
   */
  function PerfClass(successRate: Option<real>): (p: Performance)
    ensures p == Excellent <==> successRate.Some? && successRate.value >= 95.0
    ensures p == Good <==> successRate.Some? && 90.0 <= successRate.value < 95.0
    ensures p == Average <==> successRate.None? || successRate.value < 90.0
  {
    if successRate.Some? && successRate.value >= 95.0 then Excellent
    else if successRate.Some? && successRate.value >= 90.0 then Good
    else Average
  }

  function Rank(p: Performance): nat {
    match p
    case Average => 0
    case Good => 1
    case Excellent => 2
  }

  /** A higher success rate never gets a lower class. */
  lemma PerfClassMonotone(a: real, b: real)
    requires a <= b
    ensures Rank(PerfClass(Some(a))) <= Rank(PerfClass(Some(b)))
  {
  }

  /** The CSS name of a class, as in `performance-excellent`. */
  function PerfName(p: Performance): string {
    match p
    case Excellent => "excellent"
    case Good => "good"
    case Average => "average"
  }

  /** `perfClass.charAt(0).toUpperCase() + perfClass.slice(1)`, on the ASCII names used here. */
  function Capitalised(s: string): (r: string)
    ensures |r| == |s|
    ensures |s| > 0 ==> r[1..] == s[1..]
  {
    if |s| > 0 && 'a' <= s[0] <= 'z' then [(s[0] as int - 32) as char] + s[1..] else s
  }

  /** The tag's text. */
  function PerfLabel(p: Performance): string {
    Capitalised(PerfName(p))
  }

  /** The tag's text is its class name with the first letter in upper case, and the three labels differ. */
  lemma PerfLabelNamesClass(p: Performance, q: Performance)
    ensures Lower(PerfLabel(p)) == PerfName(p)
    ensures 'A' <= PerfLabel(p)[0] <= 'Z'
    ensures p != q ==> PerfLabel(p) != PerfLabel(q)
  {
    var name := PerfName(p);
    assert LowerChar(PerfLabel(p)[0]) == name[0];
    assert Lower(PerfLabel(p)) == name;
    if p != q {
      assert PerfLabel(p)[0] != PerfLabel(q)[0];
    }
  }

  // ---------------------------------------------------------------------------------
  // Export.

  /** The text of a field before quoting: "" for null and undefined, arrays joined with "; ". */
  function AnalyticsText(v: JsValue): (r: string)
    ensures v.Null? || v.Undefined? ==> r == ""
    ensures v.Arr? ==> r == Join(ElementStrings(v.items), "; ")
    ensures !v.Arr? && !v.Null? && !v.Undefined? ==> r == ToJsString(v)
  {
    match v
    case Arr(items) => Join(ElementStrings(items), "; ")
    case _ => Csv.FieldText(v)
  }

  /** `formatCSVField` of the analytics page. */
  function FormatField(v: JsValue): string {
    Csv.EncodeText(AnalyticsText(v))
  }

  /** One item's cells, one per header, in header order. */
  function Cells(headers: seq<string>, item: Record): (r: seq<string>)
    ensures |r| == |headers|
    ensures forall j :: 0 <= j < |headers| ==> r[j] == AnalyticsText(Lookup(item, headers[j]))
  {
    seq(|headers|, j requires 0 <= j < |headers| => AnalyticsText(Lookup(item, headers[j])))
  }

  function Records(headers: seq<string>, data: seq<Record>): (r: seq<seq<string>>)
    ensures |r| == |data|
    ensures forall k :: 0 <= k < |data| ==> r[k] == Cells(headers, data[k])
  {
    seq(|data|, k requires 0 <= k < |data| => Cells(headers, data[k]))
  }

  /** `exportToCSV`: the header line, then one row per item. */
  function ExportCsv(headers: seq<string>, data: seq<Record>): string {
    Csv.Document(headers, Records(headers, data))
  }

  /** Each field of a row is `FormatField` of the item's value under that header. */
  lemma RowIsFormattedFields(headers: seq<string>, item: Record)
    ensures Csv.EncodeAll(Cells(headers, item)) ==
            seq(|headers|, j requires 0 <= j < |headers| => FormatField(Lookup(item, headers[j])))
  {
  }

  /**
   * Reading an export back gives the header names, then for each item, in order, the text
   * of its value under each header (empty where the item lacks the key).
   */
  lemma ExportCsvRoundTrip(headers: seq<string>, data: seq<Record>)
    requires Csv.PlainHeaders(headers)
    requires |data| >= 1
    ensures Csv.ReadRecords(ExportCsv(headers, data)) == Some([headers] + Records(headers, data))
  {
    Csv.DocumentRoundTrip(headers, Records(headers, data));
  }

  const TeamHeaders: seq<string> := ["id", "name", "phone", "status", "location", "members",
    "avgResponseTime", "incidentsHandled", "successRate", "specialization", "equipment"]

  const RiskHeaders: seq<string> := ["location", "riskScore", "incidents", "touristCount", "riskLevel"]

  /** No team header needs quoting, so the header line reads back as the header names. */
  lemma TeamHeadersPlain()
    ensures Csv.PlainHeaders(TeamHeaders)
  {
    Csv.WordIsPlain("id");
    Csv.WordIsPlain("name");
    Csv.WordIsPlain("phone");
    Csv.WordIsPlain("status");
    Csv.WordIsPlain("location");
    Csv.WordIsPlain("members");
    Csv.WordIsPlain("avgResponseTime");
    Csv.WordIsPlain("incidentsHandled");
    Csv.WordIsPlain("successRate");
    Csv.WordIsPlain("specialization");
    Csv.WordIsPlain("equipment");
  }

  /** No risk header needs quoting. */
  lemma RiskHeadersPlain()
    ensures Csv.PlainHeaders(RiskHeaders)
  {
    Csv.WordIsPlain("location");
    Csv.WordIsPlain("riskScore");
    Csv.WordIsPlain("incidents");
    Csv.WordIsPlain("touristCount");
    Csv.WordIsPlain("riskLevel");
  }

  /** What the export button writes: the headers, which fetched list, and the file name. */
  datatype ExportPlan = ExportPlan(headers: seq<string>, teams: bool, filename: string)

  /**
   * `exportReport`: the team-performance tab exports the teams under eleven headers, the
   * risk-assessment tab the risk data under five; no active tab, or any other tab, exports nothing.
   */
  function ExportSelection(activeTab: Option<string>): (r: Option<ExportPlan>)
    ensures r.Some? <==> activeTab == Some("team-performance") || activeTab == Some("risk-assessment")
    ensures r.Some? ==> Csv.PlainHeaders(r.value.headers)
    ensures r.Some? && r.value.teams ==> |r.value.headers| == 11 && activeTab == Some("team-performance")
    ensures r.Some? && !r.value.teams ==> |r.value.headers| == 5 && activeTab == Some("risk-assessment")
  {
    TeamHeadersPlain();
    RiskHeadersPlain();
    match activeTab
    case Some(tab) =>
      if tab == "team-performance" then Some(ExportPlan(TeamHeaders, true, "team_performance_report.csv"))
      else if tab == "risk-assessment" then Some(ExportPlan(RiskHeaders, false, "risk_assessment_report.csv"))
      else None
    case None => None
  }

  /** The file the export button produces, if any: its name and its text. */
  function ExportReport(activeTab: Option<string>, allTeams: seq<Record>, allRiskData: seq<Record>)
    : Option<(string, string)>
  {
    match ExportSelection(activeTab)
    case Some(plan) =>
      Some((plan.filename, ExportCsv(plan.headers, if plan.teams then allTeams else allRiskData)))
    case None => None
  }

  /** The team export reads back as the eleven headers and each team's fields, in order. */
  lemma TeamExportRoundTrip(allTeams: seq<Record>, allRiskData: seq<Record>)
    requires |allTeams| >= 1
    ensures var r := ExportReport(Some("team-performance"), allTeams, allRiskData);
            && r.Some? && r.value.0 == "team_performance_report.csv"
            && Csv.ReadRecords(r.value.1) == Some([TeamHeaders] + Records(TeamHeaders, allTeams))
  {
    var plan := ExportSelection(Some("team-performance")).value;
    ExportCsvRoundTrip(plan.headers, allTeams);
  }

  /** The risk export reads back as the five headers and each location's fields, in order. */
  lemma RiskExportRoundTrip(allTeams: seq<Record>, allRiskData: seq<Record>)
    requires |allRiskData| >= 1
    ensures var r := ExportReport(Some("risk-assessment"), allTeams, allRiskData);
            && r.Some? && r.value.0 == "risk_assessment_report.csv"
            && Csv.ReadRecords(r.value.1) == Some([RiskHeaders] + Records(RiskHeaders, allRiskData))
  {
    var plan := ExportSelection(Some("risk-assessment")).value;
    ExportCsvRoundTrip(plan.headers, allRiskData);
  }
}
