/**
 * The reports page: the search box that shows and hides the cards of the active list, the
 * recent-reports list with its placeholder and pushed reports, and the CSV download.
 */
module Reports {
  import opened Wrappers
  import opened Text
  import opened Js
  import opened Views
  import Csv

  // ---------------------------------------------------------------------------------
  // Search.

  /** A searchable card: its heading, its first paragraph, and whether it is shown. */
  datatype SearchCard = SearchCard(title: string, description: string, visible: bool)

  /** A card is shown when the term occurs in its lower-cased heading or paragraph. */
  predicate Visible(card: SearchCard, term: string) {
    Contains(Lower(card.title), term) || Contains(Lower(card.description), term)
  }

  /** Every card of a list, shown or hidden by the term. */
  function ApplySearch(cards: seq<SearchCard>, term: string): (r: seq<SearchCard>)
    ensures |r| == |cards|
    ensures forall k :: 0 <= k < |cards| ==>
              r[k].title == cards[k].title && r[k].description == cards[k].description
              && (r[k].visible <==> Visible(cards[k], term))
  {
    seq(|cards|, k requires 0 <= k < |cards| => cards[k].(visible := Visible(cards[k], term)))
  }

  /** The three searchable lists. */
  datatype ReportLists = ReportLists(templates: seq<SearchCard>, recent: seq<SearchCard>, custom: seq<SearchCard>)

  /**
   * The search box's input handler: the input is lower-cased, and only the list of the
   * active tab is searched; no active tab, or a tab without a list, changes nothing.
   */
  function OnSearchInput(lists: ReportLists, activeTab: Option<string>, input: string): ReportLists {
    var term := Lower(input);
    match activeTab
    case None => lists
    case Some(tab) =>
      if tab == "report-templates" then lists.(templates := ApplySearch(lists.templates, term))
      else if tab == "recent-reports" then lists.(recent := ApplySearch(lists.recent, term))
      else if tab == "custom-reports" then lists.(custom := ApplySearch(lists.custom, term))
      else lists
  }

  /** The list the search touches on a tab, if it has one. */
  function SearchedList(lists: ReportLists, tab: string): Option<seq<SearchCard>> {
    if tab == "report-templates" then Some(lists.templates)
    else if tab == "recent-reports" then Some(lists.recent)
    else if tab == "custom-reports" then Some(lists.custom)
    else None
  }

  /**
   * The search changes the active tab's list and no other: in it, a card is shown exactly
   * when the lower-cased input occurs in its lower-cased heading or paragraph.
   */
  lemma SearchTouchesOnlyActiveList(lists: ReportLists, tab: string, input: string)
    ensures var after := OnSearchInput(lists, Some(tab), input);
            && (SearchedList(lists, tab).None? ==> after == lists)
            && (tab != "report-templates" ==> after.templates == lists.templates)
            && (tab != "recent-reports" ==> after.recent == lists.recent)
            && (tab != "custom-reports" ==> after.custom == lists.custom)
    ensures var after := OnSearchInput(lists, Some(tab), input);
            SearchedList(lists, tab).Some? ==>
              var before, now := SearchedList(lists, tab).value, SearchedList(after, tab).value;
              && |now| == |before|
              && forall k :: 0 <= k < |before| ==>
                   (now[k].visible <==> Contains(Lower(before[k].title), Lower(input))
                                        || Contains(Lower(before[k].description), Lower(input)))
  {
  }

  /** An empty search shows every card of the active list. */
  lemma EmptySearchShowsAll(cards: seq<SearchCard>)
    ensures forall k :: 0 <= k < |cards| ==> ApplySearch(cards, Lower(""))[k].visible
  {
    forall k | 0 <= k < |cards|
      ensures ApplySearch(cards, "")[k].visible
    {
      ContainsEmpty(Lower(cards[k].title));
    }
  }

  /** The search ignores the case of the input. */
  lemma SearchIgnoresInputCase(lists: ReportLists, activeTab: Option<string>, input: string)
    ensures OnSearchInput(lists, activeTab, Lower(input)) == OnSearchInput(lists, activeTab, input)
  {
    LowerIdempotent(input);
  }

  // ---------------------------------------------------------------------------------
  // Recent reports.

  /** A report as the server sends it; its tag must be a string. */
  datatype Report = Report(
    title: JsValue,
    tag: string,
    description: JsValue,
    createdBy: JsValue,
    dateRange: JsValue,
    fileSize: JsValue)

  /** The buttons a recent report's card can carry: "Download" and "View Details". */
  datatype CardButton = Download | ViewDetails

  /** What a recent report's card shows. */
  datatype RecentCard = RecentCard(
    title: string,
    tagClass: string,
    tag: string,
    description: string,
    meta: seq<string>,
    buttons: seq<CardButton>)

  /** `createRecentReportCardHTML`. */
  function RecentCardFor(report: Report): (card: RecentCard)
    ensures Download in card.buttons <==> report.tag == "completed"
    ensures ViewDetails in card.buttons
    ensures card.buttons[|card.buttons| - 1] == ViewDetails
    ensures card.tagClass == Lower(report.tag)
  {
    var download := if report.tag == "completed" then [Download] else [];
    RecentCard(
      ToJsString(report.title), Lower(report.tag), report.tag, ToJsString(report.description),
      [ToJsString(report.createdBy), ToJsString(report.dateRange), ToJsString(report.fileSize)],
      download + [ViewDetails])
  }

  /** A child of the recent-reports list: a notice paragraph, or a card that may or may not still show its description. */
  datatype ListItem = Notice(text: string) | CardItem(card: RecentCard, showsDescription: bool)

  const NoReports: string := "No recent reports found."

  /** `renderRecentReports`; `None` is a null or missing list. */
  function RenderRecent(reports: Option<seq<Report>>): (items: seq<ListItem>)
    ensures reports.None? || reports.value == [] <==> items == [Notice(NoReports)]
    ensures reports.Some? && reports.value != [] ==>
              && |items| == |reports.value|
              && forall k :: 0 <= k < |items| ==> items[k] == CardItem(RecentCardFor(reports.value[k]), true)
  {
    if reports.None? || reports.value == [] then [Notice(NoReports)]
    else
      var cards := Cards(reports.value);
      assert cards[0].CardItem?;
      cards
  }

  /** One whole card per report, in order. */
  function Cards(reports: seq<Report>): (items: seq<ListItem>)
    ensures |items| == |reports|
    ensures forall k :: 0 <= k < |items| ==> items[k] == CardItem(RecentCardFor(reports[k]), true)
  {
    if reports == [] then [] else [CardItem(RecentCardFor(reports[0]), true)] + Cards(reports[1..])
  }

  /** `querySelector('p').remove()` on the list: the first paragraph in document order goes, which may be a card's description. */
  function RemoveFirstParagraph(items: seq<ListItem>): seq<ListItem> {
    if items == [] then []
    else match items[0]
      case Notice(_) => items[1..]
      case CardItem(c, shows) =>
        if shows then [CardItem(c, false)] + items[1..]
        else [items[0]] + RemoveFirstParagraph(items[1..])
  }

  /** `prependRecentReport` as written. */
  function PrependAsWritten(items: seq<ListItem>, report: Report): seq<ListItem> {
    [CardItem(RecentCardFor(report), true)] + RemoveFirstParagraph(items)
  }

  /** As written, a second pushed report removes the description of the card below it. */
  lemma PrependErasesDescription(r1: Report, r2: Report)
    ensures PrependAsWritten(RenderRecent(Some([r1])), r2)
            == [CardItem(RecentCardFor(r2), true), CardItem(RecentCardFor(r1), false)]
    ensures PrependAsWritten(RenderRecent(Some([r1])), r2) != RenderRecent(Some([r2, r1]))
  {
    RenderSingle(r1);
    RemoveFirstOfOneCard(RecentCardFor(r1));
    assert RenderRecent(Some([r2, r1]))[1] == CardItem(RecentCardFor(r1), true);
  }

  /** A list of one report is that report's whole card. */
  lemma RenderSingle(r: Report)
    ensures RenderRecent(Some([r])) == [CardItem(RecentCardFor(r), true)]
  {
  }

  /** On a single whole card, the first paragraph is that card's description. */
  lemma RemoveFirstOfOneCard(c: RecentCard)
    ensures RemoveFirstParagraph([CardItem(c, true)]) == [CardItem(c, false)]
  {
    assert [CardItem(c, true)][1..] == [];
  }

  /** The list without its notice paragraphs: cards are kept whole. */
  function DropNotices(items: seq<ListItem>): (r: seq<ListItem>)
    ensures |r| <= |items|
    ensures forall k :: 0 <= k < |r| ==> r[k].CardItem?
  {
    if items == [] then []
    else if items[0].Notice? then DropNotices(items[1..])
    else [items[0]] + DropNotices(items[1..])
  }

  /** `prependRecentReport` removing only the notice that stood in for an empty list. */
  function Prepend(items: seq<ListItem>, report: Report): seq<ListItem> {
    [CardItem(RecentCardFor(report), true)] + DropNotices(items)
  }

  /** While the list holds only a notice, the written and the intended handlers agree. */
  lemma PrependAgreesOnNotice(text: string, report: Report)
    ensures PrependAsWritten([Notice(text)], report) == Prepend([Notice(text)], report)
  {
  }

  /** The list after a run of `new-report-ready` pushes, in arrival order. */
  function PrependAll(items: seq<ListItem>, pushes: seq<Report>): seq<ListItem>
    decreases |pushes|
  {
    if pushes == [] then items else PrependAll(Prepend(items, pushes[0]), pushes[1..])
  }

  /** A pushed report on a rendered list gives the list rendered with that report first. */
  lemma PrependIsRender(reports: seq<Report>, report: Report)
    ensures Prepend(RenderRecent(Some(reports)), report) == RenderRecent(Some([report] + reports))
  {
    if reports == [] {
      PrependOnNotice(report);
    } else {
      PrependOnCards(reports, report);
    }
  }

  /** The first report pushed onto the empty list replaces its notice. */
  lemma PrependOnNotice(report: Report)
    ensures Prepend(RenderRecent(Some([])), report) == RenderRecent(Some([report]))
  {
    var items := RenderRecent(Some([]));
    assert items == [Notice(NoReports)];
    assert DropNotices(items) == DropNotices(items[1..]);
    assert items[1..] == [];
    assert [report] + [] == [report];
  }

  /** A report pushed onto a list of cards goes on top of them. */
  lemma PrependOnCards(reports: seq<Report>, report: Report)
    requires reports != []
    ensures Prepend(RenderRecent(Some(reports)), report) == RenderRecent(Some([report] + reports))
  {
    var items := RenderRecent(Some(reports));
    var card := CardItem(RecentCardFor(report), true);
    var after := RenderRecent(Some([report] + reports));
    CardsHaveNoNotices(items);
    assert Prepend(items, report) == [card] + items;
    assert |after| == |items| + 1;
    forall k | 0 <= k < |after|
      ensures after[k] == ([card] + items)[k]
    {
      if k > 0 {
        assert ([report] + reports)[k] == reports[k - 1];
      }
    }
  }

  /** A list of cards has no notice to drop. */
  lemma {:induction false} CardsHaveNoNotices(items: seq<ListItem>)
    requires forall k :: 0 <= k < |items| ==> items[k].CardItem?
    ensures DropNotices(items) == items
  {
    if items != [] {
      CardsHaveNoNotices(items[1..]);
      assert [items[0]] + items[1..] == items;
    }
  }

  /**
   * Pushed reports sit above the fetched ones, newest first, each card whole; the
   * placeholder is gone as soon as one report arrives.
   */
  lemma {:induction false} PushedReportsNewestFirst(reports: seq<Report>, pushes: seq<Report>)
    ensures PrependAll(RenderRecent(Some(reports)), pushes) == RenderRecent(Some(Reversed(pushes) + reports))
    decreases |pushes|
  {
    if pushes == [] {
      assert Reversed(pushes) + reports == reports;
    } else {
      var start := RenderRecent(Some(reports));
      var mid := Prepend(start, pushes[0]);
      assert PrependAll(start, pushes) == PrependAll(mid, pushes[1..]);
      PrependIsRender(reports, pushes[0]);
      PushedReportsNewestFirst([pushes[0]] + reports, pushes[1..]);
      ReversedCons(pushes, reports);
    }
  }

  // ---------------------------------------------------------------------------------
  // Download.

  const DownloadHeaders: seq<string> :=
    ["id", "type", "status", "priority", "touristName", "location", "assignedTeam", "summary"]

  /** `formatCSVField` of the reports page: `String(field)`, quoted when it must be; "" for null and undefined. */
  function FormatField(v: JsValue): (r: string)
    ensures v.Null? || v.Undefined? ==> r == ""
    ensures !v.Null? && !v.Undefined? && !Csv.NeedsQuotes(ToJsString(v)) ==> r == ToJsString(v)
  {
    Csv.EncodeText(Csv.FieldText(v))
  }

  function Cells(item: Record): (r: seq<string>)
    ensures |r| == |DownloadHeaders|
    ensures forall j :: 0 <= j < |DownloadHeaders| ==> r[j] == Csv.FieldText(Lookup(item, DownloadHeaders[j]))
  {
    seq(|DownloadHeaders|, j requires 0 <= j < |DownloadHeaders| => Csv.FieldText(Lookup(item, DownloadHeaders[j])))
  }

  function Records(data: seq<Record>): (r: seq<seq<string>>)
    ensures |r| == |data|
    ensures forall k :: 0 <= k < |data| ==> r[k] == Cells(data[k])
  {
    seq(|data|, k requires 0 <= k < |data| => Cells(data[k]))
  }

  /** `handleDownloadReport`'s file: the eight alert headers, then one row per fetched alert. */
  function ExportCsv(data: seq<Record>): string {
    Csv.Document(DownloadHeaders, Records(data))
  }

  /** Each row holds exactly the eight encoded fields, in header order. */
  lemma RowHasEightFields(item: Record)
    ensures Csv.EncodeAll(Cells(item)) ==
            seq(|DownloadHeaders|, j requires 0 <= j < |DownloadHeaders| => FormatField(Lookup(item, DownloadHeaders[j])))
    ensures |Csv.EncodeAll(Cells(item))| == 8
  {
  }

  /** Reading the download back gives the header line, then each alert's eight fields, in order. */
  lemma ExportCsvRoundTrip(data: seq<Record>)
    requires |data| >= 1
    ensures Csv.ReadRecords(ExportCsv(data)) == Some([DownloadHeaders] + Records(data))
  {
    DownloadHeadersPlain();
    Csv.DocumentRoundTrip(DownloadHeaders, Records(data));
  }

  /** No download header needs quoting. */
  lemma DownloadHeadersPlain()
    ensures Csv.PlainHeaders(DownloadHeaders)
  {
    Csv.WordIsPlain("id");
    Csv.WordIsPlain("type");
    Csv.WordIsPlain("status");
    Csv.WordIsPlain("priority");
    Csv.WordIsPlain("touristName");
    Csv.WordIsPlain("location");
    Csv.WordIsPlain("assignedTeam");
    Csv.WordIsPlain("summary");
  }
}
