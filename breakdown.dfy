/**
 * `weekly_breakdown` and `product_breakdown`: the classified users split into
 * cohorts by the Monday of their trial-start week and by `latest_product`,
 * each cohort summarised by `compute_rates`.
 */
module Breakdown {
  import opened Wrappers
  import opened Text
  import opened Classify
  import opened Rates
  import opened Calendar

  /** A row of the frame once the `outcome` column has been added. */
  datatype Classified = Classified(row: Row, outcome: Outcome)

  /** The `outcome` column of a frame. */
  function Outcomes(rows: seq<Classified>): seq<Outcome> {
    seq(|rows|, i requires 0 <= i < |rows| => rows[i].outcome)
  }

  // ---------------------------------------------------------------- weekly

  /** One entry of `weekly_cohorts`: the rates of one week plus its `week_start`. */
  datatype WeekCohort = WeekCohort(weekStart: int, rates: RateSummary)

  /** The `week` column: the week start of the trial-start day, absent when the day is. */
  function WeekOf(c: Classified): Option<int> {
    match c.row.trialStartDate
    case None => None
    case Some(day) => Some(WeekStart(day))
  }

  /** The group of week `week`: the rows whose `week` equals it, in frame order. */
  function InWeek(rows: seq<Classified>, week: int): (group: seq<Classified>)
    ensures forall c :: c in group <==> c in rows && WeekOf(c) == Some(week)
  {
    if rows == [] then []
    else (if WeekOf(rows[0]) == Some(week) then [rows[0]] else []) + InWeek(rows[1..], week)
  }

  /** A week's group holds each row of that week as many times as the frame does. */
  lemma {:induction false} InWeekCounts(rows: seq<Classified>, week: int, c: Classified)
    ensures multiset(InWeek(rows, week))[c] == if WeekOf(c) == Some(week) then multiset(rows)[c] else 0
  {
    if rows != [] {
      assert rows == [rows[0]] + rows[1..];
      InWeekCounts(rows[1..], week, c);
    }
  }

  /** `df.dropna(subset=['week'])`: the rows that have a trial-start day. */
  function Dated(rows: seq<Classified>): (dated: seq<Classified>)
    ensures forall c :: c in dated <==> c in rows && WeekOf(c).Some?
    ensures |dated| <= |rows|
  {
    if rows == [] then []
    else (if WeekOf(rows[0]).Some? then [rows[0]] else []) + Dated(rows[1..])
  }

  /** The dated rows hold each row with a week as many times as the frame does. */
  lemma {:induction false} DatedCounts(rows: seq<Classified>, c: Classified)
    ensures multiset(Dated(rows))[c] == if WeekOf(c).Some? then multiset(rows)[c] else 0
  {
    if rows != [] {
      assert rows == [rows[0]] + rows[1..];
      DatedCounts(rows[1..], c);
    }
  }

  /** The distinct values of the `week` column. */
  function WeekKeys(rows: seq<Classified>): set<int> {
    set c | c in rows && WeekOf(c).Some? :: WeekOf(c).value
  }

  /** The `week_start` values of a list of week cohorts. */
  ghost function WeekStarts(weeks: seq<WeekCohort>): set<int> {
    set w | w in weeks :: w.weekStart
  }

  /** Week starts strictly increase along the list. */
  ghost predicate ChronologicalOrder(weeks: seq<WeekCohort>) {
    forall i, j :: 0 <= i < j < |weeks| ==> weeks[i].weekStart < weeks[j].weekStart
  }

  /**
   * What `weekly_breakdown(df)` returns: one cohort per distinct week, weeks in
   * ascending order, each with the rates of exactly the rows of that week.
   */
  ghost predicate IsWeeklyBreakdown(rows: seq<Classified>, weeks: seq<WeekCohort>) {
    ChronologicalOrder(weeks)
    && WeekStarts(weeks) == WeekKeys(rows)
    && forall i :: 0 <= i < |weeks| ==>
         weeks[i].rates == ComputeRates(Outcomes(InWeek(rows, weeks[i].weekStart)))
  }

  /**
   * The earliest week still pending, found by scanning the `week` column:
   * `groupby` visits its keys in sorted order. It plays the role `Text.Least`
   * plays for product ids, for the integer week keys.
   */
  method EarliestPending(rows: seq<Classified>, pending: set<int>) returns (week: int)
    requires pending != {} && pending <= WeekKeys(rows)
    ensures week in pending && forall w :: w in pending ==> week <= w
  {
    var best: Option<int> := None;
    for i := 0 to |rows|
      invariant best.Some? ==> best.value in pending
      invariant forall j :: 0 <= j < i && WeekOf(rows[j]).Some? && WeekOf(rows[j]).value in pending
                  ==> best.Some? && best.value <= WeekOf(rows[j]).value
    {
      match WeekOf(rows[i])
      case Some(w) =>
        if w in pending && (best.None? || w < best.value) {
          best := Some(w);
        }
      case None =>
    }
    forall w | w in pending
      ensures best.Some? && best.value <= w
    {
      assert w in WeekKeys(rows);
      var c :| c in rows && WeekOf(c).Some? && WeekOf(c).value == w;
      var j :| 0 <= j < |rows| && rows[j] == c;
    }
    week := best.value;
  }

  /** `weekly_breakdown(df)`. */
  method WeeklyBreakdown(rows: seq<Classified>) returns (weeks: seq<WeekCohort>)
    ensures IsWeeklyBreakdown(rows, weeks)
  {
    var pending := WeekKeys(rows);
    weeks := [];
    while pending != {}
      invariant WeekStarts(weeks) + pending == WeekKeys(rows)
      invariant pending <= WeekKeys(rows)
      invariant forall i, w :: 0 <= i < |weeks| && w in pending ==> weeks[i].weekStart < w
      invariant ChronologicalOrder(weeks)
      invariant forall i :: 0 <= i < |weeks| ==>
                  weeks[i].rates == ComputeRates(Outcomes(InWeek(rows, weeks[i].weekStart)))
      decreases pending
    {
      var week := EarliestPending(rows, pending);
      var rates := ComputeRates(Outcomes(InWeek(rows, week)));
      var next := weeks + [WeekCohort(week, rates)];
      NextWeekKeepsOrder(weeks, pending, next[|weeks|]);
      weeks := next;
      pending := pending - {week};
    }
  }

  /** Appending the earliest pending week keeps the weeks in chronological order. */
  lemma NextWeekKeepsOrder(weeks: seq<WeekCohort>, pending: set<int>, x: WeekCohort)
    requires ChronologicalOrder(weeks)
    requires forall i, w :: 0 <= i < |weeks| && w in pending ==> weeks[i].weekStart < w
    requires x.weekStart in pending && forall w :: w in pending ==> x.weekStart <= w
    ensures ChronologicalOrder(weeks + [x])
    ensures forall i, w :: 0 <= i < |weeks| + 1 && w in pending - {x.weekStart} ==>
              (weeks + [x])[i].weekStart < w
    ensures WeekStarts(weeks + [x]) == WeekStarts(weeks) + {x.weekStart}
  {
    var next := weeks + [x];
    forall i, j | 0 <= i < j < |next|
      ensures next[i].weekStart < next[j].weekStart
    {
      if j < |weeks| {
        assert next[i] == weeks[i] && next[j] == weeks[j];
      }
    }
  }

  /** A row with a trial-start day is in the group of exactly one emitted week. */
  lemma DatedRowInExactlyOneWeek(rows: seq<Classified>, weeks: seq<WeekCohort>, c: Classified)
    requires IsWeeklyBreakdown(rows, weeks)
    requires c in rows && c.row.trialStartDate.Some?
    ensures exists i :: 0 <= i < |weeks| && c in InWeek(rows, weeks[i].weekStart)
    ensures forall i, j :: 0 <= i < |weeks| && 0 <= j < |weeks|
              && c in InWeek(rows, weeks[i].weekStart) && c in InWeek(rows, weeks[j].weekStart)
              ==> i == j
  {
    var week := WeekOf(c).value;
    assert week in WeekKeys(rows);
    assert week in WeekStarts(weeks);
    var w :| w in weeks && w.weekStart == week;
    var i :| 0 <= i < |weeks| && weeks[i] == w;
    assert c in InWeek(rows, weeks[i].weekStart);
  }

  /** A row without a trial-start day is in no week's group. */
  lemma UndatedRowInNoWeek(rows: seq<Classified>, weeks: seq<WeekCohort>, c: Classified)
    requires c.row.trialStartDate.None?
    ensures forall i :: 0 <= i < |weeks| ==> c !in InWeek(rows, weeks[i].weekStart)
  {
  }

  /** The sum of `total_trials` over a list of week cohorts. */
  function TotalTrials(weeks: seq<WeekCohort>): nat {
    if weeks == [] then 0 else weeks[0].rates.totalTrials + TotalTrials(weeks[1..])
  }

  /** The sizes of the groups of the weeks `keys`, added up. */
  function GroupSizes(rows: seq<Classified>, keys: seq<int>): nat {
    if keys == [] then 0 else |InWeek(rows, keys[0])| + GroupSizes(rows, keys[1..])
  }

  /** How many entries of `keys` are the week `week`. */
  function Hits(keys: seq<int>, week: Option<int>): nat {
    if keys == [] then 0 else (if week == Some(keys[0]) then 1 else 0) + Hits(keys[1..], week)
  }

  lemma {:induction false} HitsDistinct(keys: seq<int>, week: Option<int>)
    requires forall i, j :: 0 <= i < j < |keys| ==> keys[i] != keys[j]
    ensures Hits(keys, week) == if week.Some? && week.value in keys then 1 else 0
  {
    if keys != [] {
      HitsDistinct(keys[1..], week);
      if week == Some(keys[0]) {
        assert keys[0] !in keys[1..];
      }
    }
  }

  lemma {:induction false} GroupSizesCons(c: Classified, rest: seq<Classified>, keys: seq<int>)
    ensures GroupSizes([c] + rest, keys) == GroupSizes(rest, keys) + Hits(keys, WeekOf(c))
  {
    if keys != [] {
      GroupSizesCons(c, rest, keys[1..]);
      assert ([c] + rest)[1..] == rest;
    }
  }

  lemma {:induction false} GroupSizesOfNothing(keys: seq<int>)
    ensures GroupSizes([], keys) == 0
  {
    if keys != [] {
      GroupSizesOfNothing(keys[1..]);
    }
  }

  /** Distinct keys covering every week of the rows split the dated rows without overlap or loss. */
  lemma {:induction false} GroupSizesCover(rows: seq<Classified>, keys: seq<int>)
    requires forall i, j :: 0 <= i < j < |keys| ==> keys[i] != keys[j]
    requires forall c :: c in rows && WeekOf(c).Some? ==> WeekOf(c).value in keys
    ensures GroupSizes(rows, keys) == |Dated(rows)|
  {
    if rows == [] {
      GroupSizesOfNothing(keys);
    } else {
      var c, rest := rows[0], rows[1..];
      assert rows == [c] + rest;
      GroupSizesCover(rest, keys);
      GroupSizesCons(c, rest, keys);
      HitsDistinct(keys, WeekOf(c));
    }
  }

  /** The `week_start` column of the week list. */
  function WeekStartList(weeks: seq<WeekCohort>): seq<int> {
    seq(|weeks|, i requires 0 <= i < |weeks| => weeks[i].weekStart)
  }

  lemma {:induction false} TotalTrialsAreGroupSizes(rows: seq<Classified>, weeks: seq<WeekCohort>)
    requires forall i :: 0 <= i < |weeks| ==>
               weeks[i].rates.totalTrials == |InWeek(rows, weeks[i].weekStart)|
    ensures TotalTrials(weeks) == GroupSizes(rows, WeekStartList(weeks))
  {
    if weeks != [] {
      var keys := WeekStartList(weeks);
      TotalTrialsAreGroupSizes(rows, weeks[1..]);
      assert keys[1..] == WeekStartList(weeks[1..]);
      assert keys[0] == weeks[0].weekStart;
      assert GroupSizes(rows, keys) == |InWeek(rows, keys[0])| + GroupSizes(rows, keys[1..]);
    }
  }

  /** Chronological week starts are distinct, and cover every week of the rows. */
  lemma WeekStartListCovers(rows: seq<Classified>, weeks: seq<WeekCohort>)
    requires ChronologicalOrder(weeks) && WeekStarts(weeks) == WeekKeys(rows)
    ensures forall i, j :: 0 <= i < j < |weeks| ==> WeekStartList(weeks)[i] != WeekStartList(weeks)[j]
    ensures forall c :: c in rows && WeekOf(c).Some? ==> WeekOf(c).value in WeekStartList(weeks)
  {
    var keys := WeekStartList(weeks);
    forall c | c in rows && WeekOf(c).Some?
      ensures WeekOf(c).value in keys
    {
      assert WeekOf(c).value in WeekKeys(rows);
      var w :| w in weeks && w.weekStart == WeekOf(c).value;
      var i :| 0 <= i < |weeks| && weeks[i] == w;
      assert keys[i] == w.weekStart;
    }
  }

  /**
   * Every dated row falls in exactly one week, so the weekly `total_trials`
   * add up to the number of rows that have a trial-start day.
   */
  lemma WeeklyTotalsCountDatedRows(rows: seq<Classified>, weeks: seq<WeekCohort>)
    requires IsWeeklyBreakdown(rows, weeks)
    ensures TotalTrials(weeks) == |Dated(rows)|
  {
    forall i | 0 <= i < |weeks|
      ensures weeks[i].rates.totalTrials == |InWeek(rows, weeks[i].weekStart)|
    {
      assert |Outcomes(InWeek(rows, weeks[i].weekStart))| == |InWeek(rows, weeks[i].weekStart)|;
    }
    TotalTrialsAreGroupSizes(rows, weeks);
    var keys := WeekStartList(weeks);
    WeekStartListCovers(rows, weeks);
    GroupSizesCover(rows, keys);
  }

  // --------------------------------------------------------------- product

  /** One entry of `products`: the rates of one product plus its `product_id`. */
  datatype ProductCohort = ProductCohort(productId: string, rates: RateSummary)

  /** The group of product `id`: the rows whose `latest_product` is it, in frame order. */
  function WithProduct(rows: seq<Classified>, id: string): (group: seq<Classified>)
    ensures forall c :: c in group <==> c in rows && c.row.latestProduct == Some(id)
  {
    if rows == [] then []
    else (if rows[0].row.latestProduct == Some(id) then [rows[0]] else []) + WithProduct(rows[1..], id)
  }

  /** A product's group holds each row of that product as many times as the frame does. */
  lemma {:induction false} WithProductCounts(rows: seq<Classified>, id: string, c: Classified)
    ensures multiset(WithProduct(rows, id))[c] == if c.row.latestProduct == Some(id) then multiset(rows)[c] else 0
  {
    if rows != [] {
      assert rows == [rows[0]] + rows[1..];
      WithProductCounts(rows[1..], id, c);
    }
  }

  /** The distinct non-missing values of the `latest_product` column. */
  function ProductKeys(rows: seq<Classified>): set<string> {
    set c | c in rows && c.row.latestProduct.Some? :: c.row.latestProduct.value
  }

  /** The `product_id` values of a list of product cohorts. */
  ghost function ProductIds(ps: seq<ProductCohort>): set<string> {
    set p | p in ps :: p.productId
  }

  /** `a` comes before `b`: more resolved users, or as many and a smaller product id. */
  predicate RankedBefore(a: ProductCohort, b: ProductCohort) {
    a.rates.resolved > b.rates.resolved
    || (a.rates.resolved == b.rates.resolved && LexLess(a.productId, b.productId))
  }

  /** Every entry comes before every later one. */
  ghost predicate Ranked(ps: seq<ProductCohort>) {
    forall i, j :: 0 <= i < j < |ps| ==> RankedBefore(ps[i], ps[j])
  }

  /** Product ids strictly increase along the list, as `groupby` emits them. */
  ghost predicate AscendingIds(ps: seq<ProductCohort>) {
    forall i, j :: 0 <= i < j < |ps| ==> LexLess(ps[i].productId, ps[j].productId)
  }

  /** Put `x` after every entry with at least as many resolved users. */
  function InsertByResolved(x: ProductCohort, ps: seq<ProductCohort>): (r: seq<ProductCohort>)
    ensures multiset(r) == multiset(ps) + multiset{x}
  {
    if ps == [] then [x]
    else if ps[0].rates.resolved >= x.rates.resolved then
      assert ps == [ps[0]] + ps[1..];
      [ps[0]] + InsertByResolved(x, ps[1..])
    else [x] + ps
  }

  /** `sorted(products, key=lambda x: x['resolved'], reverse=True)`, a stable sort. */
  function SortByResolved(ps: seq<ProductCohort>): (r: seq<ProductCohort>)
    ensures multiset(r) == multiset(ps)
  {
    if ps == [] then []
    else
      assert ps == ps[..|ps| - 1] + [ps[|ps| - 1]];
      InsertByResolved(ps[|ps| - 1], SortByResolved(ps[..|ps| - 1]))
  }

  lemma {:induction false} InsertKeepsRanked(x: ProductCohort, ps: seq<ProductCohort>)
    requires Ranked(ps)
    requires forall i :: 0 <= i < |ps| ==> LexLess(ps[i].productId, x.productId)
    ensures Ranked(InsertByResolved(x, ps))
  {
    if ps != [] && ps[0].rates.resolved >= x.rates.resolved {
      var t := InsertByResolved(x, ps[1..]);
      InsertKeepsRanked(x, ps[1..]);
      forall k | 0 <= k < |t|
        ensures RankedBefore(ps[0], t[k])
      {
        assert t[k] in multiset(t);
        if t[k] != x {
          assert t[k] in multiset(ps[1..]);
          var m :| 0 <= m < |ps[1..]| && ps[1..][m] == t[k];
          assert ps[m + 1] == t[k];
        }
      }
    } else if ps != [] {
      forall k | 0 <= k < |ps|
        ensures RankedBefore(x, ps[k])
      {
        if k > 0 {
          assert RankedBefore(ps[0], ps[k]);
        }
      }
    }
  }

  /**
   * Stable sorting of a list in ascending product-id order by resolved count,
   * descending, ranks it: ties keep ascending product-id order.
   */
  lemma {:induction false} SortByResolvedRanks(ps: seq<ProductCohort>)
    requires AscendingIds(ps)
    ensures Ranked(SortByResolved(ps))
  {
    if ps != [] {
      var init, last := ps[..|ps| - 1], ps[|ps| - 1];
      SortByResolvedRanks(init);
      var sorted := SortByResolved(init);
      forall i | 0 <= i < |sorted|
        ensures LexLess(sorted[i].productId, last.productId)
      {
        assert sorted[i] in multiset(init);
        var m :| 0 <= m < |init| && init[m] == sorted[i];
        assert ps[m] == sorted[i];
      }
      InsertKeepsRanked(last, sorted);
    }
  }

  /**
   * What `product_breakdown(df)` returns: nothing without a `latest_product`
   * column; otherwise one cohort per distinct present product, ranked by
   * resolved count, each with the rates of exactly the rows of that product.
   */
  ghost predicate IsProductBreakdown(rows: seq<Classified>, hasProductColumn: bool, ps: seq<ProductCohort>) {
    if !hasProductColumn then ps == []
    else
      ProductIds(ps) == ProductKeys(rows)
      && Ranked(ps)
      && forall i :: 0 <= i < |ps| ==>
           ps[i].rates == ComputeRates(Outcomes(WithProduct(rows, ps[i].productId)))
  }

  /**
   * The groups of `df.groupby('latest_product')` with their rates, in the
   * ascending product order in which `groupby` visits them; rows without a
   * product form no group.
   */
  method ProductGroups(rows: seq<Classified>) returns (grouped: seq<ProductCohort>)
    ensures ProductIds(grouped) == ProductKeys(rows)
    ensures AscendingIds(grouped)
    ensures forall i :: 0 <= i < |grouped| ==>
              grouped[i].rates == ComputeRates(Outcomes(WithProduct(rows, grouped[i].productId)))
  {
    grouped := [];
    var pending := ProductKeys(rows);
    while pending != {}
      invariant ProductIds(grouped) + pending == ProductKeys(rows)
      invariant forall i, p :: 0 <= i < |grouped| && p in pending ==> LexLess(grouped[i].productId, p)
      invariant AscendingIds(grouped)
      invariant forall i :: 0 <= i < |grouped| ==>
                  grouped[i].rates == ComputeRates(Outcomes(WithProduct(rows, grouped[i].productId)))
      decreases pending
    {
      var product := Least(pending);
      var cohort := ProductCohort(product, ComputeRates(Outcomes(WithProduct(rows, product))));
      NextProductKeepsOrder(grouped, pending, cohort);
      NextProductIds(grouped, cohort);
      grouped := grouped + [cohort];
      pending := pending - {product};
    }
  }

  /** `product_breakdown(df)`: the groups, ranked by resolved count. */
  method ProductBreakdown(rows: seq<Classified>, hasProductColumn: bool) returns (products: seq<ProductCohort>)
    ensures IsProductBreakdown(rows, hasProductColumn, products)
  {
    if !hasProductColumn {
      return [];
    }
    var grouped := ProductGroups(rows);
    products := SortByResolved(grouped);
    RankingGroupsGivesBreakdown(rows, grouped);
  }

  /** Appending a cohort adds exactly its id to the ids of the list. */
  lemma NextProductIds(grouped: seq<ProductCohort>, x: ProductCohort)
    ensures ProductIds(grouped + [x]) == ProductIds(grouped) + {x.productId}
  {
    var next := grouped + [x];
    forall id | id in ProductIds(next)
      ensures id in ProductIds(grouped) + {x.productId}
    {
      var p :| p in next && p.productId == id;
      var i :| 0 <= i < |next| && next[i] == p;
      if i < |grouped| {
        assert grouped[i] == p;
      }
    }
    forall id | id in ProductIds(grouped) + {x.productId}
      ensures id in ProductIds(next)
    {
      if id == x.productId {
        assert next[|grouped|] == x;
      } else {
        var p :| p in grouped && p.productId == id;
        var i :| 0 <= i < |grouped| && grouped[i] == p;
        assert next[i] == p;
      }
    }
  }

  /** Appending the least pending product keeps the groups in ascending product order. */
  lemma NextProductKeepsOrder(grouped: seq<ProductCohort>, pending: set<string>, x: ProductCohort)
    requires AscendingIds(grouped)
    requires forall i, p :: 0 <= i < |grouped| && p in pending ==> LexLess(grouped[i].productId, p)
    requires x.productId in pending && forall p :: p in pending ==> LexLessEq(x.productId, p)
    ensures AscendingIds(grouped + [x])
    ensures forall i, p :: 0 <= i < |grouped| + 1 && p in pending - {x.productId} ==>
              LexLess((grouped + [x])[i].productId, p)
  {
    var next := grouped + [x];
    forall i, j | 0 <= i < j < |next|
      ensures LexLess(next[i].productId, next[j].productId)
    {
      if j < |grouped| {
        assert next[i] == grouped[i] && next[j] == grouped[j];
      }
    }
  }

  /** Sorting the groups, emitted in product order, yields the breakdown. */
  lemma RankingGroupsGivesBreakdown(rows: seq<Classified>, grouped: seq<ProductCohort>)
    requires ProductIds(grouped) == ProductKeys(rows)
    requires AscendingIds(grouped)
    requires forall i :: 0 <= i < |grouped| ==>
               grouped[i].rates == ComputeRates(Outcomes(WithProduct(rows, grouped[i].productId)))
    ensures IsProductBreakdown(rows, true, SortByResolved(grouped))
  {
    var products := SortByResolved(grouped);
    SortByResolvedRanks(grouped);
    forall p
      ensures p in products <==> p in grouped
    {
      assert p in products <==> p in multiset(products);
      assert p in grouped <==> p in multiset(grouped);
    }
    assert ProductIds(products) == ProductIds(grouped);
    forall i | 0 <= i < |products|
      ensures products[i].rates == ComputeRates(Outcomes(WithProduct(rows, products[i].productId)))
    {
      assert products[i] in grouped;
    }
  }

  /** Ranking and per-product rates together rule out a product appearing twice. */
  lemma ProductIdsDistinct(rows: seq<Classified>, ps: seq<ProductCohort>)
    requires IsProductBreakdown(rows, true, ps)
    ensures forall i, j :: 0 <= i < j < |ps| ==> ps[i].productId != ps[j].productId
  {
    forall i, j | 0 <= i < j < |ps|
      ensures ps[i].productId != ps[j].productId
    {
      LexLessIrreflexive(ps[i].productId);
    }
  }

  /** A cohort with `n` resolved users, all converted. */
  function ResolvedCohort(id: string, n: nat): ProductCohort {
    ProductCohort(id, RateSummary(n, n, 0, n, 0, 0, Some(Scale), Some(0), Some(0)))
  }

  /**
   * Resolved counts [5, 20, 5] in product order come out as [20, 5, 5]: the
   * larger count first, the two tied products in their original order.
   */
  lemma TiesKeepProductOrder()
    ensures SortByResolved([ResolvedCohort("a", 5), ResolvedCohort("b", 20), ResolvedCohort("c", 5)])
         == [ResolvedCohort("b", 20), ResolvedCohort("a", 5), ResolvedCohort("c", 5)]
  {
    var a, b, c := ResolvedCohort("a", 5), ResolvedCohort("b", 20), ResolvedCohort("c", 5);
    assert [a, b, c][..2] == [a, b];
    LargerCountGoesFirst(a, b);
    TieGoesLast(c, b, a);
  }

  lemma LargerCountGoesFirst(a: ProductCohort, b: ProductCohort)
    requires a.rates.resolved < b.rates.resolved
    ensures SortByResolved([a, b]) == [b, a]
  {
    assert [a, b][..1] == [a] && [a][..0] == [];
  }

  lemma TieGoesLast(c: ProductCohort, b: ProductCohort, a: ProductCohort)
    requires c.rates.resolved <= b.rates.resolved && c.rates.resolved <= a.rates.resolved
    ensures InsertByResolved(c, [b, a]) == [b, a, c]
  {
    InsertAfterNoSmaller(c, [b, a]);
  }

  /** A cohort that does not beat any already placed one goes after all of them: the sort is stable. */
  lemma {:induction false} InsertAfterNoSmaller(x: ProductCohort, ps: seq<ProductCohort>)
    requires forall p :: p in ps ==> x.rates.resolved <= p.rates.resolved
    ensures InsertByResolved(x, ps) == ps + [x]
  {
    if ps != [] {
      assert ps[0] in ps && forall p :: p in ps[1..] ==> p in ps;
      InsertAfterNoSmaller(x, ps[1..]);
      assert InsertByResolved(x, ps) == [ps[0]] + InsertByResolved(x, ps[1..]);
      assert [ps[0]] + (ps[1..] + [x]) == ps + [x];
    }
  }
}
