/**
 * `compute_rates`: outcome counts for a group of classified users and the
 * conversion, cancellation and billing-issue rates among the resolved ones.
 * A rate is reported in basis points (0.3333 is 3333): Python's
 * `round(count / resolved, 4)` times 10000.
 */
module Rates {
  import opened Wrappers
  import opened Classify

  /** The dictionary `compute_rates` returns. */
  datatype RateSummary = RateSummary(
    totalTrials: nat,
    resolved: nat,
    inTrial: nat,
    converted: nat,
    cancelled: nat,
    billingIssue: nat,
    conversionRate: Option<nat>,
    cancelRate: Option<nat>,
    billingRate: Option<nat>)

  /** Rates carry four decimal places: one unit is 1/10000. */
  const Scale: nat := 10000

  /** How many users of the group have outcome `o`. */
  function Count(group: seq<Outcome>, o: Outcome): (n: nat)
    ensures n <= |group|
  {
    if group == [] then 0
    else (if group[0] == o then 1 else 0) + Count(group[1..], o)
  }

  /** `df_subset[df_subset['outcome'] != 'Still in Trial']`. */
  function Resolved(group: seq<Outcome>): (r: seq<Outcome>)
    ensures |r| + Count(group, StillInTrial) == |group|
    ensures Count(r, StillInTrial) == 0
    ensures Count(r, Converted) == Count(group, Converted)
    ensures Count(r, Cancelled) == Count(group, Cancelled)
    ensures Count(r, BillingIssue) == Count(group, BillingIssue)
  {
    if group == [] then []
    else
      var rest := Resolved(group[1..]);
      if group[0] == StillInTrial then rest
      else
        assert ([group[0]] + rest)[1..] == rest;
        [group[0]] + rest
  }

  /** Every user has exactly one of the four outcomes, so the four counts add up to the group size. */
  lemma {:induction false} CountsPartition(group: seq<Outcome>)
    ensures Count(group, StillInTrial) + Count(group, Converted)
          + Count(group, BillingIssue) + Count(group, Cancelled) == |group|
  {
    if group != [] {
      CountsPartition(group[1..]);
    }
  }

  /** `rate`, in units of 1/10000, is within half a unit of `count / total`. */
  predicate WithinHalfUnit(rate: nat, count: nat, total: nat) {
    -(total as int) <= 2 * (rate * total - count * Scale) <= total
  }

  /**
   * `round(count / total, 4)` in units of 1/10000: the nearest unit, a tie
   * going to the even one.
   */
  function RoundedRate(count: nat, total: nat): (rate: nat)
    requires 0 < total && count <= total
    ensures rate <= Scale
    ensures WithinHalfUnit(rate, count, total)
  {
    var q := count * Scale / total;
    var rem := count * Scale % total;
    QuotientBounds(count, total);
    if 2 * rem > total || (2 * rem == total && q % 2 == 1) then
      RoundUpDistance(q, rem, count, total);
      q + 1
    else
      q
  }

  /** The truncated quotient is at most one whole, and exactly one whole only without remainder. */
  lemma QuotientBounds(count: nat, total: nat)
    requires 0 < total && count <= total
    ensures count * Scale == (count * Scale / total) * total + count * Scale % total
    ensures count * Scale / total <= Scale
    ensures count * Scale / total == Scale ==> count * Scale % total == 0
  {
    var q, rem := count * Scale / total, count * Scale % total;
    var n := count * Scale;
    assert n == q * total + rem;
    if q > Scale {
      MulMonotone(Scale + 1, q, total);
      MulMonotone(count, total, Scale);
      assert false;
    }
    if q == Scale {
      MulMonotone(count, total, Scale);
    }
  }

  /** Rounding up leaves the distance `total - rem`. */
  lemma RoundUpDistance(q: nat, rem: nat, count: nat, total: nat)
    requires count * Scale == q * total + rem
    ensures (q + 1) * total - count * Scale == total - rem
  {
    assert (q + 1) * total == q * total + total;
  }

  lemma MulMonotone(a: int, b: int, c: nat)
    requires a <= b
    ensures a * c <= b * c
  {
    assert b * c - a * c == (b - a) * c;
  }

  /**
   * What a rate field holds: nothing when no user of the group is resolved,
   * otherwise `count / resolved` rounded to four places, which lies in [0, 1].
   */
  predicate RateAgrees(rate: Option<nat>, count: nat, resolved: nat) {
    if resolved == 0 then rate == None
    else rate.Some? && rate.value <= Scale && WithinHalfUnit(rate.value, count, resolved)
  }

  /** The invariants every summary `compute_rates` returns satisfies. */
  predicate Consistent(r: RateSummary) {
    r.resolved + r.inTrial == r.totalTrials
    && r.converted + r.cancelled + r.billingIssue == r.resolved
    && RateAgrees(r.conversionRate, r.converted, r.resolved)
    && RateAgrees(r.cancelRate, r.cancelled, r.resolved)
    && RateAgrees(r.billingRate, r.billingIssue, r.resolved)
  }

  /** `compute_rates(df_subset)`, taking only the outcome column of the group. */
  function ComputeRates(group: seq<Outcome>): (r: RateSummary)
    ensures r.totalTrials == |group|
    ensures r.inTrial == Count(group, StillInTrial)
    ensures r.converted == Count(group, Converted)
    ensures r.cancelled == Count(group, Cancelled)
    ensures r.billingIssue == Count(group, BillingIssue)
    ensures Consistent(r)
  {
    CountsPartition(group);
    var resolved := Resolved(group);
    var total := |resolved|;
    if total == 0 then
      RateSummary(|group|, 0, |group|, 0, 0, 0, None, None, None)
    else
      var conv := Count(resolved, Converted);
      var canc := Count(resolved, Cancelled);
      var bill := Count(resolved, BillingIssue);
      var inTrial := Count(group, StillInTrial);
      CountsPartition(resolved);
      RateSummary(|group|, total, inTrial, conv, canc, bill,
                  Some(RoundedRate(conv, total)),
                  Some(RoundedRate(canc, total)),
                  Some(RoundedRate(bill, total)))
  }

  /** A group with no resolved user: zero outcome counts, everyone in trial, every rate null. */
  lemma NothingResolved(group: seq<Outcome>)
    requires forall i :: 0 <= i < |group| ==> group[i] == StillInTrial
    ensures ComputeRates(group)
         == RateSummary(|group|, 0, |group|, 0, 0, 0, None, None, None)
  {
    var r := ComputeRates(group);
    assert Count(group, StillInTrial) == |group| by {
      AllOneOutcome(group, StillInTrial);
    }
  }

  lemma {:induction false} AllOneOutcome(group: seq<Outcome>, o: Outcome)
    requires forall i :: 0 <= i < |group| ==> group[i] == o
    ensures Count(group, o) == |group|
  {
    if group != [] {
      AllOneOutcome(group[1..], o);
    }
  }
}
