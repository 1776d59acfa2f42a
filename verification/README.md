# Sprint burndown reconstruction, in Dafny

This project models the computational core of `jira_remaining_points.py`. The script
reconstructs, for every issue of a sprint, which status the issue held on each sprint day. It
does this from the issue's changelog. It then decides whether the issue's story points still
count as remaining that day and sums those contributions into a daily burndown total.

The model is functional: immutable datatypes and pure recursive functions over sequences.
Methods are used only for the source's per-day accumulation loop and for the whole run. Calendar days are `int` day
numbers, statuses are `string`, story points are `real`.

Modules, one per piece of the computation:

- `Wrappers` (`wrappers.dfy`): `Option` for the source's `None` and `Result` for a raised error.
- `Changelog` (`changelog.dfy`): changelog entries and items, and the status events derived
  from them. This covers the filter to the `status` field and the stable sort by day
  (`extract_status_changes`). The sort is an insertion sort that puts a new event in front of
  the events it ties with.
- `Timeline` (`timeline.dfy`): `status_on_date`, written as the source's scan with its early
  exit, and `first_date_reaching_status`.
- `Remaining` (`remaining.dfy`): the business rules (tracked statuses, the acceptance-testing
  status name, whether reaching it is permanent) and the per-day remaining-points rule.
- `Burndown` (`burndown.dfy`): sprint bounds, the inclusive day range, the detail rows of each
  issue clipped to its creation day, the per-day accumulation, and the whole run. The status
  walk of each issue starts from the status chosen by a `StartRule`. `Burndown.Run` is the
  source's run: every walk starts from the issue's status now (line 137). `Burndown.RunCorrected`
  starts every walk from the status the issue was created in (see "Findings").

Each operation is paired with an independent statement of what it should compute:

- The extracted events are shown to be the unique sorted sequence that keeps each day's
  events in changelog order.
- The scan with early exit is shown equal to a scan without it, and to "the last event on or
  before the day".
- The branchy per-day rule is shown equal to a single predicate, `Remaining.Counts`.
- The accumulated totals are shown equal to a per-issue reference sum, `Burndown.ReferenceTotal`.

Two behaviours of the code a reader may not expect:

- Daily totals exist only for days on which at least one row was emitted, that is, sprint days
  by which some issue had been created. A sprint day before every issue's creation, or any day
  of a sprint with no issues, gets no total at all, rather than a zero total.
  `Burndown.Run` states exactly this key set.
- The starting status of the walk is discussed under "Findings".

## Model

| member | source | states |
|---|---|---|
| `Changelog.ItemEvents` | jira_remaining_points.py:91-93 | an entry yields at most one event per item, every one dated by the entry's creation day |
| `Changelog.ItemEventsAppend` | jira_remaining_points.py:91-93 | items are converted one by one in their order: converting two item lists in a row concatenates their events |
| `Changelog.CollectSingleItem` | jira_remaining_points.py:92-93 | a single item yields the event (day, fromString, toString) exactly when its field is `status`, and nothing otherwise |
| `Changelog.CollectAppend` | jira_remaining_points.py:89-93 | entries are processed one after the other: collecting two runs of entries concatenates their events |
| `Changelog.CollectMembers` | jira_remaining_points.py:86-93 | an event is collected exactly when some entry has a `status` item with that from/to, dated by that entry |
| `Changelog.InsertByDate` | jira_remaining_points.py:94 | insertion adds exactly the one event: the result is a permutation of the input plus it |
| `Changelog.InsertByDateSorted` | jira_remaining_points.py:94 | inserting into a day-sorted sequence keeps it day-sorted |
| `Changelog.InsertByDateOnDate` | jira_remaining_points.py:94 | the inserted event goes before the events of its own day and no other day's events move |
| `Changelog.SortByDate` | jira_remaining_points.py:94 | the sort result is ordered by day and is a permutation of its input |
| `Changelog.SortByDateStable` | jira_remaining_points.py:94 | the sort is stable: for every day, that day's events keep their original order |
| `Changelog.ExtractStatusChanges` | jira_remaining_points.py:86-95 | the extracted list is sorted by day, a permutation of the collected status events, and keeps each day's events in changelog order |
| `Changelog.SortedStableUnique` | jira_remaining_points.py:94 | two day-sorted sequences with the same events, in the same order, on every day are equal |
| `Changelog.ExtractIsTheStableSort` | jira_remaining_points.py:86-95 | any day-sorted arrangement of the collected events that keeps each day's order is exactly the extracted list |
| `Timeline.EarlyExitIsHarmless` | jira_remaining_points.py:103-110 | on a sorted list, stopping at the first event after the day gives the same status as scanning every event |
| `Timeline.WalkReachesLastApplicable` | jira_remaining_points.py:103-110 | the scan ends in the target status of the last sorted event dated on or before the day |
| `Timeline.WalkIsLastApplicable` | jira_remaining_points.py:103-110 | the scan yields the starting status when every event is later than the day, else the target of the last event on or before it |
| `Timeline.WalkResultOrigin` | jira_remaining_points.py:103-110 | the status on a day is the starting status or the target of some event dated on or before that day |
| `Timeline.StatusOnDate` | jira_remaining_points.py:103-110 | with no status transitions in the changelog the status on every day is the starting status |
| `Timeline.StatusOnDateIsLastApplicable` | jira_remaining_points.py:103-110 | the status on a day is the target of the last extracted transition dated on or before it, or the starting status if none is |
| `Timeline.FirstReach` | jira_remaining_points.py:97-101 | the result is absent exactly when no event enters the target, and otherwise is the day of the first event in order that enters it |
| `Timeline.FirstDateReachingStatus` | jira_remaining_points.py:97-101 | the first day reaching a status is absent exactly when no extracted transition enters that status, and otherwise is the day of the first sorted transition entering it |
| `Timeline.FirstReachIsEarliest` | jira_remaining_points.py:97-101 | on a sorted list the first day reaching the target is no later than any event entering it |
| `Timeline.NotInTargetBeforeReaching` | jira_remaining_points.py:97-110 | before the first day reaching a status, or on any day if it is never reached, the reconstructed status is that status only if the starting status was |
| `Remaining.RemainingOn` | jira_remaining_points.py:146-158 | the value is 0 or the points; it is the points exactly when the status is tracked and not (acceptance testing reached and (permanent rule or in acceptance testing)); it is 0 from the day acceptance testing is reached under the permanent rule, and 0 for untracked statuses |
| `Remaining.PermanentUatStaysDone` | jira_remaining_points.py:147-148 | under the permanent rule the value is 0 on the day acceptance testing is reached and every later day, whatever the status |
| `Remaining.NonPermanentFollowsStatus` | jira_remaining_points.py:150-156 | without the permanent rule, after acceptance testing is reached the value is 0 while in it, and otherwise the points if the status is tracked and 0 if not, for any point value |
| `Remaining.BeforeUatFollowsTracking` | jira_remaining_points.py:157-158 | before acceptance testing is reached, or if it never is, the value is the points if the status is tracked and 0 if not, for any point value |
| `Burndown.SprintBounds` | jira_remaining_points.py:78-84 | a sprint without a start, or without both an end and a completion day, is an error; otherwise the bounds are the start and the end, falling back to the completion day |
| `Burndown.DateRange` | jira_remaining_points.py:72-76 | the range has end - start + 1 days (none when start > end), the i-th being start + i |
| `Burndown.DateRangeMembers` | jira_remaining_points.py:72-76 | a day is in the range exactly when it lies between the bounds, and the days strictly ascend |
| `Burndown.StatusMatchesNextTransition` | jira_remaining_points.py:103-110 | on a consistent sorted changelog starting from the given status, the status on a day is the one the next transition after it leaves |
| `Burndown.CreationStatusAgreesWithChangelog` | jira_remaining_points.py:137-150 | starting the walk from the creation status, every reconstructed day agrees with the consistent changelog |
| `Burndown.AsWrittenBaselineMisreportsEarlyDays` | jira_remaining_points.py:137-158 | starting from the current status, as the source does, an issue moved from "To Do" to "Done" on day 5 is reported "Done" and contributes 0 on day 2; from the creation status it is "To Do" and contributes its 3 points |
| `Burndown.DayRows` | jira_remaining_points.py:141-166 | an issue's rows are dated by days of the range on or after its creation, and each carries the status on that day and the remaining value of the rule for that status |
| `Burndown.IssueRowsOnDay` | jira_remaining_points.py:141-166 | over a sprint, an issue has exactly one row for each sprint day on or after its creation, the one built for that day, and none for any other day |
| `Burndown.Contribution` | jira_remaining_points.py:139-158 | an issue's value on a day is its points exactly when its status that day (walked from the starting status) is tracked and it is not past acceptance testing under the permanent rule nor in acceptance testing after reaching it, else 0 |
| `Burndown.IssueRows` | jira_remaining_points.py:139-166 | each row of an issue is dated by a range day on or after its creation and carries the issue's key, its points, its status that day and its contribution that day |
| `Burndown.AllRows` | jira_remaining_points.py:127-166 | every detail row is dated by a range day and its remaining value is 0 or the row's story points |
| `Burndown.AccumulateStep` | jira_remaining_points.py:173-175 | adding a row to its day's total, started at 0 if new, keeps every day's total equal to the sum of its rows |
| `Burndown.AggregateByDay` | jira_remaining_points.py:172-175 | a total exists exactly for the days some row is dated, and each is the sum of the remaining values of that day's rows |
| `Burndown.ExpectedRowsOnPresent` | jira_remaining_points.py:141-144 | a day has reference rows exactly when some issue was created on or before it |
| `Burndown.ExpectedRowsOnTotal` | jira_remaining_points.py:141-175 | a day's reference rows add up to the reference per-issue total |
| `Burndown.AllRowsOnDay` | jira_remaining_points.py:127-166 | over a sprint, the rows dated by a sprint day are exactly one row per issue created by then, in issue order, each that issue's row for the day; other days have none |
| `Burndown.AllRowsTotalOnDay` | jira_remaining_points.py:127-175 | a day has rows exactly when it is a sprint day by which some issue was created, and its rows add up to the reference per-issue total |
| `Burndown.NoHistoryIsConstant` | jira_remaining_points.py:141-158 | an issue with no status transitions keeps its status every day, under either starting rule, and contributes its points every day exactly when that status is tracked |
| `Burndown.ReopenedIssueTransitions` | jira_remaining_points.py:86-95 | two single-item entries on days 3 and 4 extract to the two transitions in day order |
| `Burndown.ReopenedIssueTimeline` | jira_remaining_points.py:97-110 | the reopened issue first reaches "UAT" on day 3 and is "UAT" only on day 3, under either starting rule |
| `Burndown.UatReopenPermanent` | jira_remaining_points.py:147-148 | under the permanent rule the issue reopened after acceptance testing counts only before day 3 |
| `Burndown.UatReopenNotPermanent` | jira_remaining_points.py:150-158 | without the permanent rule the reopened issue counts on every day except the day it sat in acceptance testing |
| `Burndown.RunWith` | jira_remaining_points.py:119-175 | for a given starting rule, the run fails exactly when the sprint bounds are missing; otherwise its rows are every issue's rows over the sprint days, each sprint day has one row per issue created by then, and the totals cover exactly the days with rows, each equal to the reference per-issue total |
| `Burndown.Run` | jira_remaining_points.py:119-175 | the source's run, each walk starting from the issue's status now: it fails exactly when the sprint bounds are missing, and otherwise it has the rows and totals `RunWith` describes for that starting status |
| `Burndown.RunCorrected` | jira_remaining_points.py:119-175 | the same run with each walk starting from the issue's creation status: it fails exactly when the sprint bounds are missing, and otherwise it has the rows and totals `RunWith` describes for that starting status |

## Left out

- HTTP access, the rate-limit retry and pagination (`get`, `get_sprint`, `list_sprint_issues`, `get_issue_with_changelog`, lines 27-66): network I/O. Issues and changelogs are inputs to `Burndown.Run`.
- Timestamp parsing (`iso_to_date`, lines 68-70): a library call. Days arrive as day numbers.
- Environment configuration and exit codes (lines 6-25, 112-117): the configuration is the explicit `Remaining.Policy` value, with `Remaining.DefaultPolicy` holding the source's defaults.
- Story-point parsing with `float()` and its fallback to 0 (lines 130-135): library behaviour on text. The points are a `real` input, so floating-point rounding of the sums is not modelled either.
- CSV output, the `.2f` formatting, the sorting of both tables for output, and the pacing sleep (lines 168-169, 177-193): output and presentation only.
- Changelog items whose `fromString` or `toString` is missing (Python `None`): the model takes both as strings.
- `Burndown.SprintBounds`: does not model Python truthiness of an empty date string, because dates arrive already parsed and are either present or absent.

## Findings

| source | as written | input that shows it | evidently intended | confidence | as-written member | corrected member |
|---|---|---|---|---|---|---|
| jira_remaining_points.py:137 | the walk of every issue starts from `fields.status.name`, the issue's status now, so every day before its first recorded transition reports the current status | an issue created in "To Do" (tracked), moved to "Done" on day 5 and "Done" now: on day 2 it is reported "Done" with 0 remaining | the walk starts from the status the issue was created in, the `from` of its first transition: day 2 reports "To Do" and its 3 points | not executed; high | `Burndown.AsWrittenBaselineMisreportsEarlyDays` (the starting status of `Burndown.Run`) | `Burndown.CreationStatusAgreesWithChangelog` (the starting status of `Burndown.RunCorrected`) |
