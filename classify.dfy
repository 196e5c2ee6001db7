/**
 * One row of the customer export after loading, and the rule chain that
 * gives every trial user exactly one exit outcome (`classify_trial_exit`).
 */
module Classify {
  import opened Wrappers
  import opened Text

  /** The four labels: "Still in Trial", "Converted", "Billing Issue", "Cancelled". */
  datatype Outcome = StillInTrial | Converted | BillingIssue | Cancelled

  /**
   * The columns of one user row that the analysis reads. `None` stands for a
   * column the export does not have or a cell that is NaN/NaT. Timestamps are
   * milliseconds since the epoch; `trialStartDate` is the UTC calendar day of
   * `trialStartAt` as a day number (0 is 1970-01-01), absent when the loader
   * could not convert it.
   */
  datatype Row = Row(
    status: Option<string>,
    totalSpent: Option<real>,
    billingIssueAt: Option<int>,
    trialStartAt: Option<int>,
    trialStartDate: Option<int>,
    latestProduct: Option<string>,
    projectName: Option<string>,
    appName: Option<string>)

  /** `str(row.get('status', '')).lower()`. */
  function StatusText(row: Row): string {
    Lower(row.status.GetOr(""))
  }

  /** `total_spent`, where a missing column or a NaN cell counts as 0. */
  function Spent(row: Row): real {
    row.totalSpent.GetOr(0.0)
  }

  /** Rule 1: the store still reports the subscription as a free trial. */
  predicate InFreeTrial(row: Row) {
    StatusText(row) == "free_trial"
  }

  /** Rule 2: the user has paid something. */
  predicate HasPaid(row: Row) {
    Spent(row) > 0.0
  }

  /** Rule 3: the status mentions a billing issue, or a billing-issue timestamp is present. */
  predicate HasBillingIssue(row: Row) {
    Contains(StatusText(row), "billing_issue") || row.billingIssueAt.Some?
  }

  /** `classify_trial_exit`: the first rule that applies decides the outcome. */
  function ClassifyTrialExit(row: Row): (o: Outcome)
    ensures o == StillInTrial <==> InFreeTrial(row)
    ensures o == Converted <==> !InFreeTrial(row) && HasPaid(row)
    ensures o == BillingIssue <==> !InFreeTrial(row) && !HasPaid(row) && HasBillingIssue(row)
    ensures o == Cancelled <==> !InFreeTrial(row) && !HasPaid(row) && !HasBillingIssue(row)
  {
    if InFreeTrial(row) then StillInTrial
    else if HasPaid(row) then Converted
    else if HasBillingIssue(row) then BillingIssue
    else Cancelled
  }

  /** A rule of the chain: when it applies and which outcome it gives. */
  datatype Rule = Rule(applies: Row -> bool, outcome: Outcome)

  /** The classifier's rules in priority order; the last one always applies. */
  function ExitRules(): seq<Rule> {
    [ Rule(InFreeTrial, StillInTrial),
      Rule(HasPaid, Converted),
      Rule(HasBillingIssue, BillingIssue),
      Rule(_ => true, Cancelled) ]
  }

  /** Evaluate a rule list top-down; the first rule that applies wins. */
  function FirstApplicable(rules: seq<Rule>, row: Row): (o: Option<Outcome>)
    ensures o.Some? <==> exists i :: 0 <= i < |rules| && rules[i].applies(row)
    ensures o.Some? ==> exists i :: 0 <= i < |rules| && rules[i].applies(row)
                          && rules[i].outcome == o.value
                          && forall j :: 0 <= j < i ==> !rules[j].applies(row)
  {
    if rules == [] then None
    else if rules[0].applies(row) then Some(rules[0].outcome)
    else
      var o := FirstApplicable(rules[1..], row);
      assert forall i :: 1 <= i < |rules| ==> rules[i] == rules[1..][i - 1];
      o
  }

  /** The classifier is exactly the first-match evaluation of its rule list. */
  lemma ClassifyIsFirstApplicableRule(row: Row)
    ensures FirstApplicable(ExitRules(), row) == Some(ClassifyTrialExit(row))
  {
    var rules := ExitRules();
    assert rules[0].applies(row) == InFreeTrial(row);
    assert rules[1..][0].applies(row) == HasPaid(row);
    assert rules[1..][1..][0].applies(row) == HasBillingIssue(row);
    assert rules[1..][1..][1..][0].applies(row);
  }

  /** Priority: a free-trial status wins over any amount spent. */
  lemma FreeTrialWinsOverSpending(row: Row)
    requires StatusText(row) == "free_trial" && Spent(row) > 0.0
    ensures ClassifyTrialExit(row) == StillInTrial
  {
  }

  /** A missing status behaves like pandas' rendering of a NaN cell, the text "nan". */
  lemma MissingStatusIsNeutral(row: Row)
    requires row.status.None?
    ensures ClassifyTrialExit(row) == ClassifyTrialExit(row.(status := Some("nan")))
  {
    var nan := row.(status := Some("nan"));
    assert StatusText(nan) == "nan";
    assert !Contains("nan", "billing_issue");
    assert !Contains("", "billing_issue");
  }

  /** A missing or NaN `total_spent` is treated exactly like 0. */
  lemma MissingSpendCountsAsZero(row: Row)
    requires row.totalSpent.None?
    ensures ClassifyTrialExit(row) == ClassifyTrialExit(row.(totalSpent := Some(0.0)))
  {
  }
}
