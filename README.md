# Tourist-safety dashboard: client-side state and derivation logic

This project models the logic inside the browser pages of a tourist-safety control
room: the alerts page, the emergency desk, communications, analytics, reports and the
main dashboard. Each page keeps a snapshot of entities (alerts, response teams,
conversations) fetched from the backend. It patches that snapshot when the push channel
reports an update. Everything it shows is derived from the snapshot: filtered lists, KPI
counters, cards, CSS class slugs, status requests and CSV exports. The model keeps that
layer. The DOM, the network and the clock become parameters or are left out.

Modules, in dependency order:

- `Wrappers`: `Option`.
- `Text`: the JavaScript string operations the pages use:
  - `toLowerCase` on ASCII;
  - `includes`;
  - `split`/`join`;
  - `trim`;
  - decimal rendering of integers;
  - the "lower-case, every space to `-`" class slug.
- `Js`: dynamic JavaScript values (`undefined`, `null`, booleans, integers, strings,
  arrays), their `String(...)` coercion and truthiness, `<option>` elements, and records
  looked up by key.
- `Views`: order-preserving filter, count, truncation (`slice(0, n)`), reversal and the
  subsequence relation.
- `Store`: the keyed snapshot.
  - `findIndex` is both a function and a scanning method.
  - An "updated" event replaces the first entry with the same id. An unknown id is
    dropped.
  - Lemmas cover idempotence, last-write-wins and commutation.
- `Csv`: the field quoting all three CSV exports use (section 2 of RFC 4180, rules 6 and
  7), plus a reader proved to be its inverse on whole documents.
- `Entities`: alerts and teams, with their status predicates.
- `Alerts`, `Emergency`, `Communications`, `Analytics`, `Reports`, `Dashboard`: one module
  per page. State the page changes in place lives in a class:
  - `Alerts.AlertBoard`;
  - `Emergency.EmergencyDesk`;
  - `Communications.ConversationPanel`.

## Model

| member | source | states |
|---|---|---|
| Store.IndexOf | alerts.js:179 | `findIndex` by id gives -1 exactly when no entry has the key; otherwise it gives the first position holding it |
| Store.FindIndex | emergency.js:180-181 | the left-to-right scan returns exactly `IndexOf` (the loop invariant says every earlier entry has another key) |
| Store.Updated | alerts.js:179-181 | an update keeps the length and every key; it replaces exactly the first slot with the update's id; an unknown id leaves the array unchanged |
| Store.IndexOfSameKeys | emergency.js:180 | where an id is found depends only on the keys, so replacing an entry with one of the same id moves nothing |
| Store.UpdatedIdempotent | alerts.js:178-185 | delivering the same `alert-updated` twice leaves the list as delivering it once |
| Store.UpdatedLastWriteWins | alerts.js:181 | of two updates for one id, the later replaces the earlier wholesale |
| Store.UpdatedCommute | emergency.js:180-181 | updates for different ids can arrive in either order with the same result |
| Store.UpdatedThenFound | alerts.js:179-181 | after an update for a known id, looking that id up finds the update, at the old position |
| Text.LowerMeaning | alerts.js:83 | `toLowerCase` keeps the length, leaves no ASCII capital, turns each capital into its small letter and keeps every other character |
| Text.LowerIdempotent | alerts.js:78 | lower-casing twice is lower-casing once |
| Text.ContainsEmpty | alerts.js:88 | every string `includes` the empty string |
| Text.ContainsSelf | emergency.js:77 | a string `includes` itself |
| Text.Split | emergency.js:137 | `split(',')` yields at least one part, and no part contains the separator |
| Text.JoinSplit | emergency.js:137 | joining the parts of `split(c)` with `c` gives back the original string |
| Text.SplitNoSeparator | emergency.js:137 | a string without the separator splits into itself alone |
| Text.SplitPair | emergency.js:137 | `a,b` with no comma in `a` or `b` splits into exactly `[a, b]` |
| Text.TrimStart | communications.js:294 | drops exactly the leading whitespace: the result is a suffix, and it starts with a visible character |
| Text.TrimEnd | communications.js:294 | drops exactly the trailing whitespace: the result is a prefix, and it ends with a visible character |
| Text.TrimEmpty | communications.js:294-295 | `trim()` is empty exactly when every character is whitespace |
| Text.TrimmedText | communications.js:294-296 | a non-empty trimmed text starts and ends with a visible character and occurs in the input |
| Text.TrimIsInfix | communications.js:294 | the trimmed text is a contiguous piece of the input with only whitespace around it |
| Text.NatToString | communications.js:113 | a count renders as a non-empty run of decimal digits with no leading zero (`0` alone exactly for zero) |
| Text.IntToString | emergency.js:81 | `String(n)` starts with `-` exactly when n is negative, holds only digits after that first character, and has no leading zero before or after the sign |
| Text.IntToStringRoundTrip | emergency.js:81 | the digits after the optional minus read back to the magnitude |
| Text.NatToStringRoundTrip | communications.js:113 | the rendered digits read back to the number |
| Text.SlugMeaning | emergency.js:79-80 | the class is the lower-cased label with `-` exactly where the label has a blank (or already a `-`) |
| Text.SlugIsNormal | emergency.js:79-80 | a slug has no space and no upper-case letter, and slugging it again changes nothing |
| Js.ElementStrings | analytics.js:172 | one string per element: `''` for null and undefined, `String(x)` for any other element |
| Js.PairToString | emergency.js:81 | a two-number coordinate array coerces to `lat,lng` |
| Views.Filter | alerts.js:83 | `filter` keeps only elements meeting the predicate and keeps every element that meets it |
| Views.FilterKeepsMultiplicity | alerts.js:83 | every element meeting the predicate is kept exactly as often as it occurs, every other one never |
| Views.FilterExtensional | alerts.js:82-94 | filters with equal predicates give equal lists |
| Views.FilterIfIsFilter | alerts.js:82-87 | a filter applied only when its control is selected is a filter by "not selected, or matches" |
| Views.FilterIsSubsequence | dashboard.js:44 | a filtered list is an order-preserving subsequence of its input |
| Views.SubsequenceReflexive | alerts.js:80 | the unfiltered list is a subsequence of itself |
| Views.FilterAll | alerts.js:80 | a filter every element passes returns the list unchanged |
| Views.FilterFuse | alerts.js:82-94 | two successive filters equal one filter by the conjunction |
| Views.CountIsPositions | alerts.js:16-19 | a count is the number of positions whose element meets the predicate |
| Views.CountMonotone | alerts.js:17 | a stronger predicate never counts more |
| Views.CountDisjoint3 | alerts.js:16-19 | three pairwise exclusive counts sum to at most the length |
| Views.CountDisjoint2 | dashboard.js:86-88 | two exclusive counts sum to at most the length |
| Views.Take | dashboard.js:106 | `slice(0, n)` has length `min(n, length)` and is a prefix |
| Views.TakeOfSubsequence | dashboard.js:106 | truncating a subsequence leaves a subsequence |
| Csv.DoubleQuotes | alerts.js:106 | `replace(/"/g, '""')` never shortens the text |
| Csv.UndoubleDoubleQuotes | analytics.js:174 | undoubling the doubled quotes gives back the original text |
| Csv.EncodeText | analytics.js:173-176 | a field without `,`, `"` or a newline is unchanged; otherwise it is wrapped in quotes and its inside undoubles to the original |
| Csv.ReadPlainExact | analytics.js:176 | an unquoted field reads back to itself |
| Csv.ReadQuotedExact | analytics.js:174 | a quoted field reads back to the original text |
| Csv.ReadFieldExact | analytics.js:173-176 | every encoded field reads back to its text, whatever follows it |
| Csv.ReadFieldsExact | analytics.js:178 | a row joined by `,` reads back to its cells |
| Csv.ReadRecordsExact | analytics.js:179 | rows joined by newlines read back to the records |
| Csv.DocumentRoundTrip | analytics.js:178-179 | header line plus rows reads back to the headers followed by every record, field by field |
| Csv.EmptyDocument | reports.js:235 | exporting no items gives the header line and one empty line |
| Alerts.FirstTwoSteps | alerts.js:82-87 | the status step followed by the priority step is one filter by both |
| Alerts.ApplyFiltersIsSinglePass | alerts.js:75-96 | the staged filters select exactly the alerts meeting every selected criterion, in order |
| Alerts.ApplyFiltersMeaning | alerts.js:82-94 | each kept alert has the selected lower-cased status, the selected priority, and the search term in its lower-cased name, location or id; every alert meeting all criteria is kept; the result is a subsequence |
| Alerts.NoCriteriaShowsAll | alerts.js:80-94 | with `all`, `all` and an empty search the list is `alertsData` itself |
| Alerts.Kpis | alerts.js:15-19 | total is the length; active, responding and resolved are the Counts of exact status matches and sum to at most the total |
| Alerts.KpisCountExactStatus | alerts.js:16-19 | each status KPI is the number of positions whose status is exactly `active`, `responding` or `resolved` |
| Alerts.ActiveKpiWithinFilter | alerts.js:17 | the active KPI never exceeds what the "active" status filter shows |
| Alerts.PrimaryActionFor | alerts.js:36-44 | disabled "Resolved" iff the status is exactly resolved; emergency response iff not resolved and the type is SOS or Medical Emergency; update-status otherwise |
| Alerts.NextStatus | alerts.js:146-147 | active→responding→investigating→resolved on the lower-cased status; anything else goes to resolved |
| Alerts.AdvanceReachesResolved | alerts.js:146-147 | three advances from any status reach resolved, which then stays put |
| Alerts.UpdateStatusRequest | alerts.js:143-148 | a request exists iff the id is known and its status is not exactly `resolved`; it carries the next status |
| Alerts.PrimaryActionAgreesWithClick | alerts.js:36-44 | an "Update Status" card always sends a request, and a "Resolved" card never does |
| Alerts.AlertBoard.constructor | alerts.js:12 | the list starts empty |
| Alerts.AlertBoard.Load | alerts.js:165-170 | the fetched snapshot becomes the list |
| Alerts.AlertBoard.OnAlertUpdated | alerts.js:178-185 | the list becomes `Updated(old list, id, alert)`; it re-renders iff the id was known |
| Alerts.AlertCells | alerts.js:111 | one cell per header |
| Alerts.ExportCsvRoundTrip | alerts.js:99-113 | the export reads back to the header row followed by each alert's ten fields |
| Emergency.AssignedTeamIndex | emergency.js:77 | -1 iff no team name contains the assigned team; otherwise the first team whose name contains it |
| Emergency.TeamPhone | emergency.js:77-78 | `''` when no team matches, otherwise the first matching team's phone |
| Emergency.FindTeamByName | emergency.js:77 | an exact team name always finds a team, no later than that team; an empty name matches the first team |
| Emergency.CardsAreOpen | emergency.js:73 | every card comes from an alert whose status is not `resolved` |
| Emergency.OpenAlertsHaveCards | emergency.js:73 | every non-resolved alert gets a card |
| Emergency.Kpis | emergency.js:66-69 | active emergencies equal the number of cards; team count equals the number of teams |
| Emergency.RequestedTeamStatus | emergency.js:155-156 | the request is `responding` exactly for dispatch and `available` exactly for recall |
| Emergency.TeamToggle | emergency.js:93 | the button's request is `responding` exactly for the dispatch button; once applied, the team is available or responding and its card offers the other button; a second round brings the first button back |
| Emergency.PromptSendsItsText | emergency.js:81 | as written, re-selecting the dropdown prompt sends "Update Status", which is no lifecycle status |
| Emergency.DropdownRequestsLifecycleStatus | emergency.js:142-147 | with the prompt's value empty, only the prompt sends nothing and every other option sends a lifecycle status |
| Emergency.AlertCommandRequest | emergency.js:139-145 | resolve always requests `resolved`; with the page's own options every dropdown choice sends something, a lifecycle status exactly when it is not the prompt; with the corrected options every request is a lifecycle status and only the prompt sends nothing |
| Emergency.TrackLocation | emergency.js:137 | rejected iff the coords attribute is `''`, `undefined` or `null`; otherwise latitude is the first part of `split(',')` and longitude the second, or `undefined` when there is no comma |
| Emergency.TrackLocationRoundTrip | emergency.js:81 | coordinates written as `lat,lng` are read back as those two numbers |
| Emergency.MissingCoordinatesRejected | emergency.js:137 | missing, null and empty coordinates are all rejected |
| Emergency.EmergencyDesk.constructor | emergency.js:3 | both lists start empty |
| Emergency.EmergencyDesk.Load | emergency.js:34-48 | the fetched alerts and teams become the lists |
| Emergency.EmergencyDesk.OnAlertUpdated | emergency.js:180 | alerts become `Updated(old alerts, id, alert)`; teams unchanged |
| Emergency.EmergencyDesk.OnTeamUpdated | emergency.js:181 | teams become `Updated(old teams, id, team)`; alerts unchanged |
| Communications.DeliverAppendsOne | communications.js:446-459 | for a known id: exactly one message is appended at the end, the earlier ones are kept in order, preview is set, time becomes "Just now", and a missing list yields `[m]`; an unknown id changes nothing; other conversations are untouched |
| Communications.MessagesAppendOnly | communications.js:446-459 | over any run of `new-message` events, each conversation's messages only grow, keeping the old ones as a prefix |
| Communications.ConversationTag | communications.js:112-114 | priority tag iff `notificationCount > 0`, carrying the priority; status tag otherwise |
| Communications.PriorityTagShowsCount | communications.js:113 | the priority tag's caption reads back to the notification count |
| Communications.DeliveryKeepsTag | communications.js:452-453 | a delivered message does not change the conversation's tag |
| Communications.SubmitMessage | communications.js:292-303 | nothing is sent iff the trimmed text is empty or no conversation (or id 0) is active; otherwise the outgoing message is exactly the trimmed input (non-empty, starting and ending visibly, found in the input), from "Control Center - Just now" |
| Communications.SubmitRefusesOnlyBlank | communications.js:294-295 | with a conversation open, a submit is refused iff the input is all whitespace |
| Communications.ConversationPanel.constructor | communications.js:38-39 | no conversations and none active |
| Communications.ConversationPanel.Load | communications.js:375-387 | the fetched list replaces the conversations; the active id is kept |
| Communications.ConversationPanel.Select | communications.js:272-287 | the clicked id becomes active; the conversation shown is the first with that id, or none |
| Communications.ConversationPanel.OnNewMessage | communications.js:446-459 | conversations become `Deliver(old, id, message, preview)`; re-render iff the id is known; messages redrawn iff it is also the active one |
| Communications.CollapseRunThen | communications.js:215 | a run of whitespace and `/` becomes one `-`, or nothing when it continues a run already replaced |
| Communications.CollapseAppend | communications.js:215 | text ending in a visible character collapses independently of what follows it |
| Communications.BroadcastSlug | communications.js:215 | the slug holds no whitespace and no `/` |
| Communications.CollapseHasNoBreaks | communications.js:215 | collapsing leaves no whitespace or `/` |
| Communications.CollapseRun | communications.js:215 | a maximal run of breaks between two pieces becomes exactly one `-` |
| Communications.CollapseNoBreaks | communications.js:215 | text without breaks is unchanged |
| Communications.CollapseKeepsCharacters | communications.js:215 | every slug character is `-` or comes from the input |
| Communications.BroadcastSlugIdempotent | communications.js:215 | slugging a slug changes nothing |
| Communications.TruthyShowsText | communications.js:195-196 | a truthy non-array value shows non-empty text |
| Communications.BroadcastDefaults | communications.js:194-207 | status shows `delivered` when falsy and the item's own value otherwise; reached shows `N/A` when falsy |
| Communications.FeedNewestFirst | communications.js:223-230 | after pushes the feed is the cards of the pushes, newest first, above the initial list |
| Communications.SendBroadcastAsWritten | communications.js:322-329 | as written: refused iff message, type text, target text or priority is empty |
| Communications.PlaceholderTargetAccepted | communications.js:405 | as written, the "Select target..." placeholder passes the form check |
| Communications.SendBroadcast | communications.js:326-330 | refused iff message, type, target value or priority is empty; a sent broadcast has all four non-empty |
| Communications.BroadcastNeedsRegion | communications.js:324-329 | the placeholder target is refused; a real region is accepted whenever the other fields are filled |
| Analytics.PerfClass | analytics.js:101-103 | excellent iff success rate ≥ 95; good iff 90 ≤ rate < 95; average otherwise, and when the rate is missing |
| Analytics.PerfClassMonotone | analytics.js:101-103 | a higher success rate never gets a lower class |
| Analytics.Capitalised | analytics.js:104 | capitalising keeps the length and everything after the first letter |
| Analytics.PerfLabelNamesClass | analytics.js:104 | the label lower-cases to the class name, starts with a capital, and differs between classes |
| Analytics.AnalyticsText | analytics.js:171-172 | null and undefined give `''`; arrays are joined with `'; '`; anything else gives `String(field)` |
| Analytics.RowIsFormattedFields | analytics.js:178 | a row's fields are the encoded cells |
| Analytics.ExportCsvRoundTrip | analytics.js:169-179 | the export reads back to the header row followed by every item's cells |
| Analytics.ExportSelection | analytics.js:154-165 | team-performance selects 11 headers, risk-assessment selects 5; any other tab exports nothing |
| Analytics.TeamExportRoundTrip | analytics.js:154-157 | the team export reads back to the 11 headers and every team's cells |
| Analytics.RiskExportRoundTrip | analytics.js:158-161 | the risk export reads back to the 5 headers and every row's cells |
| Reports.ApplySearch | reports.js:99-106 | each card is visible iff the term is in its lower-cased title or description |
| Reports.SearchTouchesOnlyActiveList | reports.js:88-96 | search changes only the list of the active tab; on any other tab nothing changes |
| Reports.EmptySearchShowsAll | reports.js:99-105 | an empty search shows every card |
| Reports.SearchIgnoresInputCase | reports.js:80 | searching for an upper-case term is the same as searching for its lower-case form |
| Reports.RecentCardFor | reports.js:160-184 | Download iff the tag is exactly `completed`; View Details always, and last; the tag class is the lower-cased tag |
| Reports.RenderRecent | reports.js:196-209 | a null or empty list shows only the placeholder; otherwise one card per report, in order |
| Reports.Cards | reports.js:203-208 | one card per report, in order, each the report's own card |
| Reports.RenderSingle | reports.js:199-208 | a one-report list renders as that report's card alone |
| Reports.PrependErasesDescription | reports.js:186-194 | as written, prepending to a list with a card removes that card's description |
| Reports.DropNotices | reports.js:188-189 | removing the placeholder leaves only cards |
| Reports.PrependAgreesOnNotice | reports.js:186-194 | on the placeholder list, the written and the corrected prepend agree |
| Reports.PrependOnNotice | reports.js:186-194 | prepending to the placeholder list gives the rendering of that one report |
| Reports.PrependOnCards | reports.js:186-194 | prepending to a list of cards gives the rendering with the new report first |
| Reports.PrependIsRender | reports.js:186-194 | prepending a report gives the list rendered with that report first |
| Reports.CardsHaveNoNotices | reports.js:188-189 | a list of cards loses nothing when placeholders are removed |
| Reports.PushedReportsNewestFirst | reports.js:186-194 | after any pushes the list is the rendering of the pushes, newest first, above the fetched reports |
| Reports.FormatField | reports.js:226-232 | null and undefined give `''`; a field needing no quotes gives `String(field)` |
| Reports.RowHasEightFields | reports.js:145 | each row has exactly eight encoded fields |
| Reports.ExportCsvRoundTrip | reports.js:225-235 | the export reads back to the eight headers followed by every item's cells |
| Dashboard.LiveEmergencies | dashboard.js:44 | at most two alerts; as many as there are live ones up to two; each is Critical or High, not resolved, and from the input |
| Dashboard.LiveEmergenciesAreFirst | dashboard.js:44 | the live list is the first live alerts, in input order |
| Dashboard.LiveWithinActive | dashboard.js:44-47 | the live count never exceeds the active-emergency KPI |
| Dashboard.DisplayType | dashboard.js:51 | `Lost Tourist` becomes `Tourist Missing`; other types are unchanged |
| Dashboard.LostTouristClass | dashboard.js:51-52 | a lost tourist gets the class `tourist-missing` |
| Dashboard.TypeClassOfDisplayName | dashboard.js:51-52 | the class of a lost tourist is `tourist-missing`; others are the type's slug, with no space, and stable |
| Dashboard.Kpis | dashboard.js:84-88 | active, available and responding are the Counts of alerts not resolved and of teams exactly available or responding; total teams is the length; available + responding ≤ total |
| Dashboard.KpisCountExactStatus | dashboard.js:85-88 | the KPIs are the numbers of positions holding an alert not exactly `resolved`, and a team exactly `available` or `responding` |
| Dashboard.ActiveAgreesWithDesk | dashboard.js:85 | the dashboard's active count equals the emergency desk's |
| Dashboard.AvailableTeams | dashboard.js:98-106 | the count is the Count of available teams, as in the KPI; min(count, 4) are listed, all available, and from the input |
| Dashboard.AvailableTeamsListed | dashboard.js:102-106 | the listed teams are the first available ones, in input order, and with four or fewer available all of them are listed |
| Dashboard.Since | dashboard.js:31-38 | minutes iff whole seconds exceed 60, with minutes the floor of seconds/60; otherwise the whole seconds |
| Dashboard.TimeSinceReadsBack | dashboard.js:31-38 | the rendered number reads back to the floored minutes or seconds, with the matching unit |
| Dashboard.SixtySeconds | dashboard.js:32-37 | any time within the sixtieth second shows "60 sec ago" |
| Dashboard.WholeMinutes | dashboard.js:32-35 | past sixty seconds, minute m (one to nine) shows that digit followed by " min ago" |
| Dashboard.TimeSinceBoundary | dashboard.js:33-37 | exactly 60 s shows "60 sec ago"; 61 s shows "1 min ago" |
| Dashboard.ActionText | dashboard.js:131-136 | weather, capacity and system get their actions; "Take Action" iff the lower-cased type is none of them |
| Dashboard.ActionTextIgnoresCase | dashboard.js:132 | the action depends only on the lower-cased type |

## Left out

- DOM rendering, `innerHTML` templating, tabs, modals and toasts. The model keeps the
  values the markup is built from: cards, tags, class slugs and visibility flags.
- `fetch` and the socket.io channel. A push is an argument to an update, and a status
  change is an emitted request value. Load and push ordering, `Promise.all` and failed
  fetches are not modelled; events apply one at a time.
- Update on an unknown id. Every "updated" handler drops an unknown id, and the model
  follows that code rather than inserting it.
- Floating-point values: the average response time, incident percentages, incidents per
  1000 and `parseFloat` on coordinates. `JsValue` numbers are integers, so the coercion of
  fractions and exponents is not modelled. `successRate` is a `real`.
- `Math.random` ETAs, `Date` and `toLocaleTimeString`.
- Dashboard.TimeSince: takes elapsed milliseconds as an integer, so an invalid date (NaN)
  is not modelled.
- `encodeURI`, the `data:text/csv` prefix and the download link.
- Chart and map code: script.js, map.js and the chart blocks of analytics.js.
- login.js: a fixed credential comparison and a redirect.
- Hard-coded display data: the sample notifications and the translator list.
- Text.Lower: `toLowerCase` is modelled on ASCII letters only.
- Strings are sequences of Unicode scalar values. JavaScript's UTF-16 code units
  (surrogate pairs, lone surrogates) are not modelled.
- Communications.BroadcastItem: the broadcast type is a present string. A missing type,
  on which `toLowerCase` throws (communications.js:215, 226), is not modelled.
- Entities.Alert: alert fields are present strings. A missing field is not modelled:
  neither the alerts export's null/undefined branch (alerts.js:103) nor a lookup for a
  missing `assignedTeam`, which searches for the text "undefined" (emergency.js:77).
- Alerts.NextStatus: a lower-cased status naming an `Object.prototype` member
  (`constructor`, `__proto__`, ...) finds that inherited member in the cycle table and
  sends it instead of "resolved". The model sends "resolved" for every unlisted status.
- Alerts.UpdateStatusRequest: an id with no alert makes the page throw before sending.
  The model returns no request there.
- Communications.SubmitMessage: the conversation id comes from `parseInt` on a DOM
  attribute, while the socket sends the id as received. The model treats both as
  integers, so a type mismatch between them is not modelled.
- The call, contact-team and radio handlers are not modelled. They only navigate to
  `tel:` links or open a modal.
- The view-location click on the alerts page is not modelled. It only navigates.
- The emergency page's broadcast form (emergency.js:162-167) is not modelled.
- The upper-casing of the status on the dashboard is not modelled.
- The contacts, translators and regions lists are not modelled.
- The new-conversation modal is not modelled.
- Plain objects as field values: the model's values are undefined, null, booleans,
  integers, strings and arrays, so `String(obj)` ("[object Object]") is not modelled.

## Findings

| source | as written | input that shows it | evidently intended | confidence | as-written member | corrected member |
|---|---|---|---|---|---|---|
| emergency.js:81, 142-147 | The status dropdown's first option, "Update Status", has no `value` attribute, so its value is its text, and the change handler sends any non-empty value | choose another status, then choose the first option again: the handler sends status "Update Status" | the prompt carries an empty value and sends nothing | not executed | Emergency.PromptSendsItsText | Emergency.DropdownRequestsLifecycleStatus |
| reports.js:188-189 | `prependRecentReport` removes the first `<p>` of the list, meant to be the "No recent reports" placeholder | a list with one card; a new report is pushed: the card's description paragraph is removed | remove only the placeholder | not executed | Reports.PrependErasesDescription | Reports.PushedReportsNewestFirst |
| communications.js:324-329, 405 | The broadcast target is read from the selected option's text, so the placeholder "Select target..." (value `""`) is non-empty and passes the check | a filled form with the target left on "Select target..." is sent | a target must be an actual region (non-empty value) | not executed | Communications.PlaceholderTargetAccepted | Communications.BroadcastNeedsRegion |
