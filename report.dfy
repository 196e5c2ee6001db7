/**
 * `generate_json`: keep the users who had a trial, classify them, and
 * assemble the overall, weekly and product summaries with the app name.
 * The clock readings for `date` and `generated_at` are parameters.
 */
module Report {
  import opened Wrappers
  import opened Text
  import opened Classify
  import opened Rates
  import opened Breakdown

  /** Which of the optional columns the loaded export has. */
  datatype Columns = Columns(trialStartAt: bool, latestProduct: bool, projectName: bool, appName: bool)

  /** The loaded export: its columns and its rows, in file order. */
  datatype Table = Table(columns: Columns, rows: seq<Row>)

  /** The summary dictionary; `date` is a day number, `generatedAt` a timestamp in milliseconds. */
  datatype Report = Report(
    date: int,
    app: string,
    generatedAt: int,
    overall: RateSummary,
    weeklyCohorts: seq<WeekCohort>,
    products: seq<ProductCohort>)

  /** The exceptions `generate_json` lets escape. */
  datatype Error =
    | IndexError              // `.iloc[0]` on a frame without rows
    | KeyError(column: string) // indexing a column the frame does not have

  /** What a call of `generate_json` ends with: an exception, `None`, or the summary. */
  datatype Analysis = Raised(error: Error) | NoTrialUsers | Analysed(report: Report)

  /** `str(cell)`: a NaN cell prints as "nan". */
  function CellText(cell: Option<string>): string {
    cell.GetOr("nan")
  }

  /** Python's truth test `not app_name`. */
  predicate NoAppName(given: Option<string>) {
    given.None? || given.value == ""
  }

  /**
   * The app name: the one given, else the first row's `project_name`, else
   * the first row's `app_name`, else "App".
   */
  function AppName(given: Option<string>, table: Table): (r: Result<string, Error>)
    ensures !NoAppName(given) ==> r == Success(given.value)
    ensures r.Failure? <==> NoAppName(given) && table.rows == []
                            && (table.columns.projectName || table.columns.appName)
    ensures r.Failure? ==> r.error == IndexError
    ensures NoAppName(given) && table.rows != [] && table.columns.projectName
            ==> r == Success(Strip(CellText(table.rows[0].projectName)))
    ensures NoAppName(given) && table.rows != [] && !table.columns.projectName && table.columns.appName
            ==> r == Success(Strip(CellText(table.rows[0].appName)))
    ensures NoAppName(given) && !table.columns.projectName && !table.columns.appName
            ==> r == Success("App")
  {
    if !NoAppName(given) then Success(given.value)
    else if table.columns.projectName then
      if table.rows == [] then Failure(IndexError)
      else Success(Strip(CellText(table.rows[0].projectName)))
    else if table.columns.appName then
      if table.rows == [] then Failure(IndexError)
      else Success(Strip(CellText(table.rows[0].appName)))
    else Success("App")
  }

  /** `df[df['trial_start_at'].notna()]` when the column exists, the whole frame otherwise. */
  function TrialUsers(table: Table): (kept: seq<Row>)
    ensures |kept| <= |table.rows|
    ensures forall r :: r in kept <==> r in table.rows && (table.columns.trialStartAt ==> r.trialStartAt.Some?)
  {
    if !table.columns.trialStartAt then table.rows
    else KeepWithTrialStart(table.rows)
  }

  function KeepWithTrialStart(rows: seq<Row>): (kept: seq<Row>)
    ensures |kept| <= |rows|
    ensures forall r :: r in kept <==> r in rows && r.trialStartAt.Some?
  {
    if rows == [] then []
    else (if rows[0].trialStartAt.Some? then [rows[0]] else []) + KeepWithTrialStart(rows[1..])
  }

  /** The filter keeps each started row as many times as the frame has it, and drops the rest. */
  lemma {:induction false} KeepWithTrialStartCounts(rows: seq<Row>, r: Row)
    ensures multiset(KeepWithTrialStart(rows))[r] == if r.trialStartAt.Some? then multiset(rows)[r] else 0
  {
    if rows != [] {
      assert rows == [rows[0]] + rows[1..];
      KeepWithTrialStartCounts(rows[1..], r);
    }
  }

  /** The trial users hold each kept row as many times as the frame does. */
  lemma TrialUsersCounts(table: Table, r: Row)
    ensures multiset(TrialUsers(table))[r] ==
            if table.columns.trialStartAt ==> r.trialStartAt.Some? then multiset(table.rows)[r] else 0
  {
    if table.columns.trialStartAt {
      KeepWithTrialStartCounts(table.rows, r);
    }
  }

  /** `df['outcome'] = df.apply(classify_trial_exit, axis=1)`. */
  function ClassifyAll(rows: seq<Row>): (users: seq<Classified>)
    ensures |users| == |rows|
    ensures forall i :: 0 <= i < |rows| ==> users[i].row == rows[i]
    ensures forall c :: c in users ==> c.outcome == ClassifyTrialExit(c.row)
  {
    seq(|rows|, i requires 0 <= i < |rows| => Classified(rows[i], ClassifyTrialExit(rows[i])))
  }

  /** `generate_json(input_file, app_name)` on an already loaded table. */
  method GenerateJson(table: Table, appName: Option<string>, today: int, now: int) returns (result: Analysis)
    ensures AppName(appName, table).Failure? ==> result == Raised(IndexError)
    ensures AppName(appName, table).Success? && TrialUsers(table) == [] ==> result == NoTrialUsers
    ensures AppName(appName, table).Success? && TrialUsers(table) != [] && !table.columns.trialStartAt
            ==> result == Raised(KeyError("trial_start_date"))
    ensures result.Analysed? <==>
              AppName(appName, table).Success? && TrialUsers(table) != [] && table.columns.trialStartAt
    ensures result.Analysed? ==>
              var users := ClassifyAll(TrialUsers(table));
              var report := result.report;
              report.date == today && report.generatedAt == now
              && report.app == AppName(appName, table).value
              && report.overall == ComputeRates(Outcomes(users))
              && report.overall.totalTrials == |users| > 0
              && IsWeeklyBreakdown(users, report.weeklyCohorts)
              && IsProductBreakdown(users, table.columns.latestProduct, report.products)
  {
    var name := AppName(appName, table);
    if name.Failure? {
      return Raised(name.error);
    }
    var rows := table.rows;
    if table.columns.trialStartAt {
      rows := KeepWithTrialStart(rows);
    }
    if |rows| == 0 {
      return NoTrialUsers;
    }
    var users := ClassifyAll(rows);
    var overall := ComputeRates(Outcomes(users));
    if !table.columns.trialStartAt {
      return Raised(KeyError("trial_start_date"));
    }
    var weeks := WeeklyBreakdown(users);
    var products := ProductBreakdown(users, table.columns.latestProduct);
    return Analysed(Report(today, name.value, now, overall, weeks, products));
  }

  /**
   * The overall summary counts every kept user, also those without a
   * trial-start day, whom the weekly cohorts leave out.
   */
  lemma OverallCountsUndatedUsers(users: seq<Classified>, overall: RateSummary, weeks: seq<WeekCohort>)
    requires overall == ComputeRates(Outcomes(users))
    requires IsWeeklyBreakdown(users, weeks)
    ensures TotalTrials(weeks) <= overall.totalTrials
    ensures (exists c :: c in users && c.row.trialStartDate.None?) ==> TotalTrials(weeks) < overall.totalTrials
  {
    WeeklyTotalsCountDatedRows(users, weeks);
    assert overall.totalTrials == |users|;
    if exists c :: c in users && c.row.trialStartDate.None? {
      var c :| c in users && c.row.trialStartDate.None?;
      DatedIsShorter(users, c);
    }
  }

  /** Leaving out a row of the frame makes the dated part strictly shorter. */
  lemma {:induction false} DatedIsShorter(rows: seq<Classified>, c: Classified)
    requires c in rows && c !in Dated(rows)
    ensures |Dated(rows)| < |rows|
  {
    if rows[0] != c {
      DatedIsShorter(rows[1..], c);
    }
  }

  /** The rows of the snapshot example, all with a trial start on day 0. */
  function SnapshotRows(): seq<Row> {
    [ Row(Some("free_trial"), Some(0.0), None, Some(0), Some(0), None, None, None),
      Row(Some("cancelled"), Some(0.0), None, Some(0), Some(0), None, None, None),
      Row(Some("active"), Some(25.0), None, Some(0), Some(0), None, None, None),
      Row(Some("billing_issue"), Some(0.0), None, Some(0), Some(0), None, None, None) ]
  }

  /** A free-trial, a cancelled, a paying and a billing-issue row get one outcome each. */
  lemma SnapshotOutcomes()
    ensures Outcomes(ClassifyAll(SnapshotRows())) == [StillInTrial, Cancelled, Converted, BillingIssue]
  {
    var rows := SnapshotRows();
    assert StatusText(rows[0]) == "free_trial";
    assert StatusText(rows[1]) == "cancelled";
    assert StatusText(rows[3]) == "billing_issue";
    assert !Contains("cancelled", "billing_issue");
    assert Contains("billing_issue", "billing_issue");
  }

  /** One user in trial and one of each resolved outcome: every rate is one third, 0.3333. */
  lemma OneOfEachOutcome()
    ensures ComputeRates([StillInTrial, Cancelled, Converted, BillingIssue])
         == RateSummary(4, 3, 1, 1, 1, 1, Some(3333), Some(3333), Some(3333))
  {
    var group := [StillInTrial, Cancelled, Converted, BillingIssue];
    var resolved := [Cancelled, Converted, BillingIssue];
    assert Resolved(group) == resolved by {
      assert group[1..] == resolved;
    }
    assert Count(resolved, Converted) == 1 && Count(resolved, Cancelled) == 1
        && Count(resolved, BillingIssue) == 1 by {
      assert resolved[1..] == [Converted, BillingIssue];
      assert resolved[1..][1..] == [BillingIssue];
    }
    assert Count(group, StillInTrial) == 1 by {
      assert group[1..] == resolved;
      assert resolved[1..] == [Converted, BillingIssue];
      assert resolved[1..][1..] == [BillingIssue];
    }
    OneThird();
  }

  lemma OneThird()
    ensures RoundedRate(1, 3) == 3333
  {
    assert 1 * Scale / 3 == 3333 && 1 * Scale % 3 == 1;
  }
}
