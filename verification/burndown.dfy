/** The burndown table: one row per issue and sprint day from the issue's creation on,
    and the per-day totals of the points still remaining. */
module Burndown {
  import opened Wrappers
  import opened Changelog
  import opened Timeline
  import opened Remaining

  /** A sprint as fetched: its start and end days may be missing on unscheduled boards. */
  datatype Sprint = Sprint(id: string, name: string, startDate: Option<int>,
                           endDate: Option<int>, completeDate: Option<int>)

  /** An issue as fetched: key, story points, its status now, creation day and changelog. */
  datatype Issue = Issue(key: string, points: real, currentStatus: string, created: int,
                         histories: seq<History>)

  /** One line of the details table. */
  datatype Row = Row(date: int, issue: string, status: string, points: real, remaining: real)

  /** Both output tables before formatting: the detail rows and the per-day totals. */
  datatype Report = Report(rows: seq<Row>, totals: map<int, real>)

  // ---------------------------------------------------------------- sprint days

  /** The sprint's first and last day; the end falls back to the completion day, and a
      sprint lacking either end is an error. */
  function SprintBounds(s: Sprint): (r: Result<(int, int)>)
    ensures r.Failure? <==> s.startDate.None? || (s.endDate.None? && s.completeDate.None?)
    ensures r.Success? ==> r.value.0 == s.startDate.value
    ensures r.Success? && s.endDate.Some? ==> r.value.1 == s.endDate.value
    ensures r.Success? && s.endDate.None? ==> r.value.1 == s.completeDate.value
  {
    if s.startDate.None? then Failure("Sprint missing startDate/endDate")
    else if s.endDate.Some? then Success((s.startDate.value, s.endDate.value))
    else if s.completeDate.Some? then Success((s.startDate.value, s.completeDate.value))
    else Failure("Sprint missing startDate/endDate")
  }

  /** The consecutive days from `start` to `end`, both included; empty when `start > end`. */
  function DateRange(start: int, end: int): (r: seq<int>)
    ensures |r| == if start <= end then end - start + 1 else 0
    ensures forall i :: 0 <= i < |r| ==> r[i] == start + i
    decreases end - start
  {
    if start > end then [] else [start] + DateRange(start + 1, end)
  }

  /** The range holds exactly the days between its bounds, in strictly ascending order. */
  lemma DateRangeMembers(start: int, end: int)
    ensures forall d :: d in DateRange(start, end) <==> start <= d <= end
    ensures forall i, j :: 0 <= i < j < |DateRange(start, end)| ==> DateRange(start, end)[i] < DateRange(start, end)[j]
  {
    var r := DateRange(start, end);
    forall d | start <= d <= end ensures d in r {
      assert r[d - start] == d;
    }
  }

  // ---------------------------------------------------------------- initial status

  /** The starting status the source uses for the walk: the issue's status now. */
  function BaselineAsWritten(issue: Issue): string
  {
    issue.currentStatus
  }

  /** The status the issue was created in: the status its first recorded transition left,
      or its status now when it never changed status. */
  function CreationStatus(issue: Issue): string
  {
    var evs := ExtractStatusChanges(issue.histories);
    if |evs| == 0 then issue.currentStatus else evs[0].from
  }

  /** Which status the walk of every issue starts from: the source's choice, the issue's
      status now, or the status the issue was created in. */
  datatype StartRule = AsWritten | FromCreation

  /** The starting status of `issue`'s walk under `rule`. */
  function StartStatus(rule: StartRule, issue: Issue): string
  {
    match rule
    case AsWritten => BaselineAsWritten(issue)
    case FromCreation => CreationStatus(issue)
  }

  /** Each transition leaves the status the previous one entered. */
  ghost predicate Consistent(evs: seq<Event>)
  {
    forall i :: 0 < i < |evs| ==> evs[i].from == evs[i - 1].to
  }

  /** On a sorted, consistent changelog that starts from `initial`, the status on a day is
      the one the next transition after that day leaves. */
  lemma StatusMatchesNextTransition(initial: string, evs: seq<Event>, day: int, k: int)
    requires Sorted(evs) && Consistent(evs)
    requires |evs| > 0 ==> evs[0].from == initial
    requires 0 <= k < |evs| && evs[k].date > day && (k == 0 || evs[k - 1].date <= day)
    ensures WalkUntil(initial, evs, day) == evs[k].from
  {
    WalkIsLastApplicable(initial, evs, day);
    if k > 0 {
      assert forall j :: k - 1 < j < |evs| ==> evs[j].date > day by {
        forall j | k - 1 < j < |evs| ensures evs[j].date > day {
          assert evs[k].date <= evs[j].date;
        }
      }
    }
  }

  /** Starting the walk from the creation status makes every reconstructed day agree with
      the changelog: the status on a day is the one the next transition leaves. */
  lemma CreationStatusAgreesWithChangelog(issue: Issue, day: int, k: int)
    requires Consistent(ExtractStatusChanges(issue.histories))
    requires var evs := ExtractStatusChanges(issue.histories);
             0 <= k < |evs| && evs[k].date > day && (k == 0 || evs[k - 1].date <= day)
    ensures StatusOnDate(CreationStatus(issue), issue.histories, day) == ExtractStatusChanges(issue.histories)[k].from
  {
    StatusMatchesNextTransition(CreationStatus(issue), ExtractStatusChanges(issue.histories), day, k);
  }

  /** An issue created in "To Do" and moved to "Done" on day 5: starting from its status
      now, the source reports it "Done" and contributing nothing on day 2, although its
      changelog shows it was still "To Do" and tracked then. */
  lemma AsWrittenBaselineMisreportsEarlyDays()
    ensures var issue := Issue("ABC-1", 3.0, "Done", 0, [History(5, [ChangeItem(StatusField, "To Do", "Done")])]);
            var hit := FirstDateReachingStatus(issue.histories, DefaultPolicy.uatName);
            && ExtractStatusChanges(issue.histories) == [Event(5, "To Do", "Done")]
            && StatusOnDate(BaselineAsWritten(issue), issue.histories, 2) == "Done"
            && RemainingOn(DefaultPolicy, 3.0, hit, StatusOnDate(BaselineAsWritten(issue), issue.histories, 2), 2) == 0.0
            && StatusOnDate(CreationStatus(issue), issue.histories, 2) == "To Do"
            && RemainingOn(DefaultPolicy, 3.0, hit, StatusOnDate(CreationStatus(issue), issue.histories, 2), 2) == 3.0
            && Contribution(DefaultPolicy, AsWritten, issue, 2) == 0.0
            && Contribution(DefaultPolicy, FromCreation, issue, 2) == 3.0
  {
    var hs := [History(5, [ChangeItem(StatusField, "To Do", "Done")])];
    assert hs[1..] == [];
    assert [ChangeItem(StatusField, "To Do", "Done")][1..] == [];
    assert CollectStatusEvents(hs) == [Event(5, "To Do", "Done")];
    var evs := [Event(5, "To Do", "Done")];
    assert evs[1..] == [];
    assert SortByDate(evs) == evs;
    assert "Done" != "UAT";
    assert "To Do" in DefaultPolicy.tracked;
    assert "Done" !in DefaultPolicy.tracked;
  }

  // ---------------------------------------------------------------- rows

  /** The details row of `issue` on `day`. */
  function DayRow(p: Policy, issue: Issue, initial: string, hitUat: Option<int>, day: int): Row
  {
    var status := StatusOnDate(initial, issue.histories, day);
    Row(day, issue.key, status, issue.points, RemainingOn(p, issue.points, hitUat, status, day))
  }

  /** The rows of one issue over `days`, skipping the days before it was created. */
  function DayRows(p: Policy, issue: Issue, initial: string, hitUat: Option<int>, days: seq<int>): (rows: seq<Row>)
    ensures |rows| <= |days|
    ensures forall k :: 0 <= k < |rows| ==>
              rows[k].date in days && rows[k].date >= issue.created
              && rows[k] == DayRow(p, issue, initial, hitUat, rows[k].date)
    decreases |days|
  {
    if |days| == 0 then []
    else
      var rest := DayRows(p, issue, initial, hitUat, days[1..]);
      assert forall k :: 0 <= k < |rest| ==> rest[k].date in days by {
        forall k | 0 <= k < |rest| ensures rest[k].date in days {
          assert rest[k].date in days[1..];
        }
      }
      (if days[0] < issue.created then [] else [DayRow(p, issue, initial, hitUat, days[0])]) + rest
  }

  /** What `issue` contributes on `day` once it exists, its walk starting as `rule` says. */
  function Contribution(p: Policy, rule: StartRule, issue: Issue, day: int): (r: real)
    ensures r == if Counts(p, FirstDateReachingStatus(issue.histories, p.uatName),
                           StatusOnDate(StartStatus(rule, issue), issue.histories, day), day)
                 then issue.points else 0.0
  {
    var hit := FirstDateReachingStatus(issue.histories, p.uatName);
    RemainingOn(p, issue.points, hit, StatusOnDate(StartStatus(rule, issue), issue.histories, day), day)
  }

  /** The details row of `issue` on `day`, its walk starting as `rule` says. */
  function IssueDayRow(p: Policy, rule: StartRule, issue: Issue, day: int): Row
  {
    DayRow(p, issue, StartStatus(rule, issue), FirstDateReachingStatus(issue.histories, p.uatName), day)
  }

  /** The rows of one issue over `days`, its walk starting as `rule` says (lines 139-166). */
  function IssueRows(p: Policy, rule: StartRule, issue: Issue, days: seq<int>): (rows: seq<Row>)
    ensures forall k :: 0 <= k < |rows| ==>
              && rows[k].date in days && rows[k].date >= issue.created
              && rows[k].issue == issue.key && rows[k].points == issue.points
              && rows[k].status == StatusOnDate(StartStatus(rule, issue), issue.histories, rows[k].date)
              && rows[k].remaining == Contribution(p, rule, issue, rows[k].date)
  {
    DayRows(p, issue, StartStatus(rule, issue), FirstDateReachingStatus(issue.histories, p.uatName), days)
  }

  /** The rows of all issues over `days`, issue by issue. */
  function AllRows(p: Policy, rule: StartRule, issues: seq<Issue>, days: seq<int>): (rows: seq<Row>)
    ensures forall k :: 0 <= k < |rows| ==> rows[k].remaining == 0.0 || rows[k].remaining == rows[k].points
    ensures forall k :: 0 <= k < |rows| ==> rows[k].date in days
    decreases |issues|
  {
    if |issues| == 0 then []
    else
      var mine := IssueRows(p, rule, issues[0], days);
      var rest := AllRows(p, rule, issues[1..], days);
      mine + rest
  }

  /** The rows dated `d`, in order. */
  function RowsOn(rows: seq<Row>, d: int): seq<Row>
    decreases |rows|
  {
    if |rows| == 0 then []
    else (if rows[0].date == d then [rows[0]] else []) + RowsOn(rows[1..], d)
  }

  lemma {:induction false} RowsOnAppend(a: seq<Row>, b: seq<Row>, d: int)
    ensures RowsOn(a + b, d) == RowsOn(a, d) + RowsOn(b, d)
    decreases |a|
  {
    if |a| == 0 {
      assert a + b == b;
    } else {
      assert (a + b)[1..] == a[1..] + b;
      RowsOnAppend(a[1..], b, d);
    }
  }

  /** Each sprint day on or after the issue's creation gets exactly one row of that issue,
      the one built for that day, and every other day gets none. */
  lemma {:induction false} IssueRowsOnDay(p: Policy, issue: Issue, initial: string, hitUat: Option<int>,
                                          s: int, e: int, d: int)
    ensures RowsOn(DayRows(p, issue, initial, hitUat, DateRange(s, e)), d)
            == if s <= d <= e && issue.created <= d then [DayRow(p, issue, initial, hitUat, d)] else []
    decreases e - s
  {
    if s <= e {
      var days := DateRange(s, e);
      assert days[0] == s;
      assert days[1..] == DateRange(s + 1, e);
      var head := if s < issue.created then [] else [DayRow(p, issue, initial, hitUat, s)];
      var rest := DayRows(p, issue, initial, hitUat, DateRange(s + 1, e));
      assert DayRows(p, issue, initial, hitUat, days) == head + rest;
      RowsOnAppend(head, rest, d);
      IssueRowsOnDay(p, issue, initial, hitUat, s + 1, e, d);
      if |head| > 0 {
        assert head[1..] == [];
      }
    }
  }

  // ---------------------------------------------------------------- aggregation

  /** The sum of the remaining values of `rows`. */
  function TotalRemaining(rows: seq<Row>): real
    decreases |rows|
  {
    if |rows| == 0 then 0.0 else rows[0].remaining + TotalRemaining(rows[1..])
  }

  lemma {:induction false} TotalRemainingAppend(a: seq<Row>, b: seq<Row>)
    ensures TotalRemaining(a + b) == TotalRemaining(a) + TotalRemaining(b)
    decreases |a|
  {
    if |a| == 0 {
      assert a + b == b;
    } else {
      assert (a + b)[1..] == a[1..] + b;
      TotalRemainingAppend(a[1..], b);
    }
  }

  /** The total remaining on day `d`: the sum over the rows dated `d`. */
  function DaySum(rows: seq<Row>, d: int): real
  {
    TotalRemaining(RowsOn(rows, d))
  }

  /** Appending a row adds its value to its own day and leaves every other day alone. */
  lemma DaySumSnoc(rows: seq<Row>, r: Row, d: int)
    ensures RowsOn(rows + [r], d) == RowsOn(rows, d) + (if r.date == d then [r] else [])
    ensures DaySum(rows + [r], d) == DaySum(rows, d) + (if r.date == d then r.remaining else 0.0)
  {
    RowsOnAppend(rows, [r], d);
    assert [r][1..] == [];
    TotalRemainingAppend(RowsOn(rows, d), if r.date == d then [r] else []);
  }

  /** `byDay` holds a total for exactly the days `rows` carries, each the sum of that day's rows. */
  ghost predicate Accumulates(byDay: map<int, real>, rows: seq<Row>)
  {
    && (forall d :: d in byDay <==> RowsOn(rows, d) != [])
    && (forall d :: d in byDay ==> byDay[d] == DaySum(rows, d))
  }

  /** Adding one more row to its day's total (starting that day at zero if it is new) keeps the totals right. */
  lemma AccumulateStep(byDay: map<int, real>, rows: seq<Row>, r: Row)
    requires Accumulates(byDay, rows)
    ensures var start := if r.date in byDay then byDay[r.date] else 0.0;
            Accumulates(byDay[r.date := start + r.remaining], rows + [r])
  {
    var start := if r.date in byDay then byDay[r.date] else 0.0;
    var m := byDay[r.date := start + r.remaining];
    forall d ensures (d in m <==> RowsOn(rows + [r], d) != []) && (d in m ==> m[d] == DaySum(rows + [r], d)) {
      DaySumSnoc(rows, r, d);
      if d == r.date && r.date !in byDay {
        assert RowsOn(rows, d) == [];
      }
    }
  }

  /** The source's accumulation: a total for each day some row carries, starting at zero
      and adding every row of that day. */
  method AggregateByDay(rows: seq<Row>) returns (byDay: map<int, real>)
    ensures forall d :: d in byDay <==> RowsOn(rows, d) != []
    ensures forall d :: d in byDay ==> byDay[d] == DaySum(rows, d)
  {
    byDay := map[];
    var i := 0;
    while i < |rows|
      invariant 0 <= i <= |rows|
      invariant Accumulates(byDay, rows[..i])
    {
      var r := rows[i];
      assert rows[..i + 1] == rows[..i] + [r];
      AccumulateStep(byDay, rows[..i], r);
      if r.date !in byDay {
        byDay := byDay[r.date := 0.0];
      }
      byDay := byDay[r.date := byDay[r.date] + r.remaining];
      i := i + 1;
    }
    assert rows[..i] == rows;
  }

  /** The independent reference total for day `d`: what each issue created by then
      contributes, summed over the issues. */
  function ReferenceTotal(p: Policy, rule: StartRule, issues: seq<Issue>, d: int): real
    decreases |issues|
  {
    if |issues| == 0 then 0.0
    else (if issues[0].created <= d then Contribution(p, rule, issues[0], d) else 0.0)
         + ReferenceTotal(p, rule, issues[1..], d)
  }

  /** The reference rows for day `d`: one row for each issue created by then, in issue order. */
  function ExpectedRowsOn(p: Policy, rule: StartRule, issues: seq<Issue>, d: int): seq<Row>
    decreases |issues|
  {
    if |issues| == 0 then []
    else (if issues[0].created <= d then [IssueDayRow(p, rule, issues[0], d)] else [])
         + ExpectedRowsOn(p, rule, issues[1..], d)
  }

  /** Some issue of `issues` was created on or before `d`. */
  ghost predicate AnyCreatedBy(issues: seq<Issue>, d: int)
  {
    exists i :: 0 <= i < |issues| && issues[i].created <= d
  }

  lemma AnyCreatedByCons(issues: seq<Issue>, d: int)
    requires |issues| > 0
    ensures AnyCreatedBy(issues, d) <==> issues[0].created <= d || AnyCreatedBy(issues[1..], d)
  {
    if AnyCreatedBy(issues, d) {
      var i :| 0 <= i < |issues| && issues[i].created <= d;
      if i > 0 {
        assert issues[1..][i - 1] == issues[i];
      }
    }
    if AnyCreatedBy(issues[1..], d) {
      var i :| 0 <= i < |issues[1..]| && issues[1..][i].created <= d;
      assert issues[i + 1] == issues[1..][i];
    }
  }

  /** The reference rows of a day exist exactly when some issue was created by then. */
  lemma {:induction false} ExpectedRowsOnPresent(p: Policy, rule: StartRule, issues: seq<Issue>, d: int)
    ensures ExpectedRowsOn(p, rule, issues, d) != [] <==> AnyCreatedBy(issues, d)
    decreases |issues|
  {
    if |issues| > 0 {
      ExpectedRowsOnPresent(p, rule, issues[1..], d);
      AnyCreatedByCons(issues, d);
    }
  }

  /** The remaining values of a day's reference rows add up to the reference total. */
  lemma {:induction false} ExpectedRowsOnTotal(p: Policy, rule: StartRule, issues: seq<Issue>, d: int)
    ensures TotalRemaining(ExpectedRowsOn(p, rule, issues, d)) == ReferenceTotal(p, rule, issues, d)
    decreases |issues|
  {
    if |issues| > 0 {
      var head := if issues[0].created <= d then [IssueDayRow(p, rule, issues[0], d)] else [];
      ExpectedRowsOnTotal(p, rule, issues[1..], d);
      TotalRemainingAppend(head, ExpectedRowsOn(p, rule, issues[1..], d));
      if |head| > 0 {
        assert head[1..] == [];
        assert TotalRemaining(head) == Contribution(p, rule, issues[0], d);
      }
    }
  }

  /** Over a sprint, the rows dated `d` are exactly one row per issue created by `d`, in issue
      order, each carrying that issue's status and remaining value on `d`, when `d` is a sprint
      day, and none otherwise. */
  lemma {:induction false} AllRowsOnDay(p: Policy, rule: StartRule, issues: seq<Issue>, s: int, e: int, d: int)
    ensures RowsOn(AllRows(p, rule, issues, DateRange(s, e)), d)
            == if s <= d <= e then ExpectedRowsOn(p, rule, issues, d) else []
    decreases |issues|
  {
    if |issues| > 0 {
      var days := DateRange(s, e);
      var mine := IssueRows(p, rule, issues[0], days);
      var rest := AllRows(p, rule, issues[1..], days);
      assert AllRows(p, rule, issues, days) == mine + rest;
      AllRowsOnDay(p, rule, issues[1..], s, e, d);
      IssueRowsOnDay(p, issues[0], StartStatus(rule, issues[0]),
                     FirstDateReachingStatus(issues[0].histories, p.uatName), s, e, d);
      RowsOnAppend(mine, rest, d);
    }
  }

  /** Over a sprint, a day has rows exactly when it is a sprint day by which some issue was
      created, and its rows add up to the reference per-issue total. */
  lemma AllRowsTotalOnDay(p: Policy, rule: StartRule, issues: seq<Issue>, s: int, e: int, d: int)
    ensures RowsOn(AllRows(p, rule, issues, DateRange(s, e)), d) != [] <==> s <= d <= e && AnyCreatedBy(issues, d)
    ensures DaySum(AllRows(p, rule, issues, DateRange(s, e)), d)
            == if s <= d <= e then ReferenceTotal(p, rule, issues, d) else 0.0
  {
    AllRowsOnDay(p, rule, issues, s, e, d);
    ExpectedRowsOnPresent(p, rule, issues, d);
    ExpectedRowsOnTotal(p, rule, issues, d);
  }

  /** An issue whose changelog records no status transition keeps its status on every day,
      under either starting rule, and contributes its points on every day exactly when that
      status is tracked. */
  lemma NoHistoryIsConstant(p: Policy, rule: StartRule, issue: Issue, d: int)
    requires ExtractStatusChanges(issue.histories) == []
    ensures StatusOnDate(StartStatus(rule, issue), issue.histories, d) == issue.currentStatus
    ensures Contribution(p, rule, issue, d) == if issue.currentStatus in p.tracked then issue.points else 0.0
  {
  }

  /** An issue in "In Progress" that enters "UAT" on day 3 and is reopened on day 4. */
  const ReopenedIssue: Issue :=
    Issue("ABC-2", 5.0, "In Progress", 0,
          [History(3, [ChangeItem(StatusField, "In Progress", "UAT")]),
           History(4, [ChangeItem(StatusField, "UAT", "In Progress")])])

  lemma ReopenedIssueTransitions()
    ensures ExtractStatusChanges(ReopenedIssue.histories)
            == [Event(3, "In Progress", "UAT"), Event(4, "UAT", "In Progress")]
  {
    var e1, e2 := Event(3, "In Progress", "UAT"), Event(4, "UAT", "In Progress");
    var hs := ReopenedIssue.histories;
    var h1, h2 := hs[0], hs[1];
    assert hs[1..] == [h2] && [h2][1..] == [];
    assert h1.items[1..] == [] && h2.items[1..] == [];
    assert ItemEvents(3, h1.items) == [e1];
    assert ItemEvents(4, h2.items) == [e2];
    assert CollectStatusEvents([h2]) == [e2];
    assert CollectStatusEvents(hs) == [e1, e2];
    assert [e1, e2][1..] == [e2];
    assert SortByDate([e2]) == [e2];
    assert InsertByDate(e1, [e2]) == [e1, e2];
  }

  /** The reopened issue is "In Progress" before day 3, "UAT" on day 3, "In Progress" from
      day 4, and first reached "UAT" on day 3; its status now is also its creation status,
      so both starting rules agree. */
  lemma ReopenedIssueTimeline(rule: StartRule, d: int)
    ensures FirstDateReachingStatus(ReopenedIssue.histories, "UAT") == Some(3)
    ensures StatusOnDate(StartStatus(rule, ReopenedIssue), ReopenedIssue.histories, d)
            == if d == 3 then "UAT" else "In Progress"
  {
    ReopenedIssueTransitions();
    var e1, e2 := Event(3, "In Progress", "UAT"), Event(4, "UAT", "In Progress");
    var evs := [e1, e2];
    assert evs[1..] == [e2] && [e2][1..] == [];
    assert StartStatus(rule, ReopenedIssue) == "In Progress";
    assert FirstReach(evs, "UAT") == Some(3);
    assert StatusOnDate(StartStatus(rule, ReopenedIssue), ReopenedIssue.histories, d) == WalkUntil("In Progress", evs, d);
    if d < 3 {
      assert WalkUntil("In Progress", evs, d) == "In Progress";
    } else {
      assert WalkUntil("In Progress", evs, d) == WalkUntil("UAT", [e2], d);
      if d == 3 {
        assert WalkUntil("UAT", [e2], d) == "UAT";
      } else {
        assert WalkUntil("UAT", [e2], d) == WalkUntil("In Progress", [], d);
      }
    }
  }

  /** Under the permanent rule the reopened issue counts before day 3 and never again. */
  lemma UatReopenPermanent(d: int)
    ensures Contribution(DefaultPolicy, AsWritten, ReopenedIssue, d) == if d < 3 then 5.0 else 0.0
  {
    ReopenedIssueTimeline(AsWritten, d);
    assert "In Progress" in DefaultPolicy.tracked;
  }

  /** Without the permanent rule the reopened issue counts on every day but day 3. */
  lemma UatReopenNotPermanent(d: int)
    ensures Contribution(DefaultPolicy.(uatPermanent := false), AsWritten, ReopenedIssue, d)
            == if d == 3 then 0.0 else 5.0
  {
    ReopenedIssueTimeline(AsWritten, d);
    assert "In Progress" in DefaultPolicy.tracked;
  }

  // ---------------------------------------------------------------- whole run

  /** `rep` is the burndown of `issues` over the sprint days `s` to `e`, with every walk
      starting as `rule` says: its rows are each issue's rows over those days, issue by
      issue; each day's rows are one per issue created by then; and the totals cover exactly
      the days with rows, each the reference per-issue total. */
  ghost predicate Describes(p: Policy, rule: StartRule, s: int, e: int, issues: seq<Issue>, rep: Report)
  {
    && rep.rows == AllRows(p, rule, issues, DateRange(s, e))
    && (forall d :: RowsOn(rep.rows, d) == if s <= d <= e then ExpectedRowsOn(p, rule, issues, d) else [])
    && (forall d :: d in rep.totals <==> s <= d <= e && AnyCreatedBy(issues, d))
    && (forall d :: d in rep.totals ==> rep.totals[d] == ReferenceTotal(p, rule, issues, d))
  }

  /** The burndown with a chosen starting rule: fails when the sprint lacks a start or an end. */
  method RunWith(p: Policy, rule: StartRule, sprint: Sprint, issues: seq<Issue>) returns (r: Result<Report>)
    ensures r.Failure? <==> SprintBounds(sprint).Failure?
    ensures r.Success? ==> Describes(p, rule, SprintBounds(sprint).value.0, SprintBounds(sprint).value.1, issues, r.value)
  {
    var bounds := SprintBounds(sprint);
    if bounds.Failure? {
      return Failure(bounds.error);
    }
    var (s, e) := bounds.value;
    var rows := AllRows(p, rule, issues, DateRange(s, e));
    var totals := AggregateByDay(rows);
    forall d ensures RowsOn(rows, d) == if s <= d <= e then ExpectedRowsOn(p, rule, issues, d) else []
              ensures (RowsOn(rows, d) != [] <==> s <= d <= e && AnyCreatedBy(issues, d))
              ensures DaySum(rows, d) == if s <= d <= e then ReferenceTotal(p, rule, issues, d) else 0.0
    {
      AllRowsOnDay(p, rule, issues, s, e, d);
      AllRowsTotalOnDay(p, rule, issues, s, e, d);
    }
    return Success(Report(rows, totals));
  }

  /** The source's burndown: every walk starts from the issue's status now. */
  method Run(p: Policy, sprint: Sprint, issues: seq<Issue>) returns (r: Result<Report>)
    ensures r.Failure? <==> SprintBounds(sprint).Failure?
    ensures r.Success? ==>
              Describes(p, AsWritten, SprintBounds(sprint).value.0, SprintBounds(sprint).value.1, issues, r.value)
  {
    r := RunWith(p, AsWritten, sprint, issues);
  }

  /** The burndown with every walk starting from the status the issue was created in. */
  method RunCorrected(p: Policy, sprint: Sprint, issues: seq<Issue>) returns (r: Result<Report>)
    ensures r.Failure? <==> SprintBounds(sprint).Failure?
    ensures r.Success? ==>
              Describes(p, FromCreation, SprintBounds(sprint).value.0, SprintBounds(sprint).value.1, issues, r.value)
  {
    r := RunWith(p, FromCreation, sprint, issues);
  }
}
