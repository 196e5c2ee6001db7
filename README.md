# Trial exit dashboard — a Dafny model of the analysis core

The dashboard reads a RevenueCat customer export. It labels every user who
started a free trial with one exit outcome: still in trial, converted,
billing issue or cancelled. It then summarises the users three ways, each
summary with counts and conversion, cancel and billing rates:

- over all users;
- per week of trial start, where weeks run Monday to Sunday;
- per `latest_product`.

The daily runner finds the newest date folder of the export bucket and
matches the detected app identifier to a configured app.

This project models that core in Dafny and proves its contracts:

- `classify.dfy`: the row record and `classify_trial_exit`. The classifier
  is proved equal to a first-match evaluation of its four rules in priority
  order.
- `rates.dfy`: `compute_rates`. The counts partition the group, and every
  rate is within half a basis point of the exact quotient. A rate is `None`
  exactly when nothing is resolved.
- `calendar.dfy`: the week start (`get_week_start`) on day numbers, where
  day 0 is 1970-01-01 and Monday is weekday 0.
- `breakdown.dfy`: `weekly_breakdown` and `product_breakdown`. Both are
  loops that visit the group keys in ascending order, as `groupby` does.
  The product list then goes through a stable sort on `resolved`,
  descending. The proofs show:
  - one cohort per distinct key, with the rates of exactly that key's rows;
  - weeks in ascending order;
  - products ranked by `resolved`, with ties in ascending product-id order;
  - the weekly totals add up to the number of dated users.
- `report.dfy`: `generate_json` on an already loaded table. It covers the
  app-name fallback, the trial-user filter, the `None` result, the two
  exceptions the code can raise, and the assembled report.
- `app_match.dfy`: `match_app_to_config`, a first-match search over four
  substring tests.
- `date_folders.dfy`: the folder-selection step of `find_latest_date_folder`,
  taken over a given prefix list. It returns the greatest date-like folder
  name.
- `text.dfy`, `wrappers.dfy`: the Python string operations the core uses
  (`lower`, `in`, `replace`, `strip`, `rstrip`, string order), and
  `Option`/`Result`.

Modelling choices:

- A rate is an integer number of basis points: 0.3333 is 3333.
- A missing column or a NaN/NaT cell is `None`.
- A timestamp is an integer in milliseconds. A calendar day is an integer
  day number.
- The clock readings of `generate_json` are parameters.
- The `strptime` date-format test is a predicate parameter.

## Model

| member | source | states |
|---|---|---|
| Classify.ClassifyTrialExit | scripts/analyze.py:41-55 | The outcome is "Still in Trial" iff the lower-cased status is `free_trial`. It is "Converted" iff not that and spent > 0. It is "Billing Issue" iff neither and the status contains `billing_issue` or a billing timestamp is present. Otherwise it is "Cancelled". The status text is `Classify.StatusText` (missing column read as ''), and the spend is `Classify.Spent` (missing or NaN read as 0). |
| Classify.FirstApplicable | scripts/analyze.py:49-55 | Evaluating a rule list top-down gives a result iff some rule applies. The result is the outcome of the first applicable rule, and no earlier rule applies. |
| Classify.ClassifyIsFirstApplicableRule | scripts/analyze.py:49-55 | The classifier equals the first-match evaluation of its four rules in priority order, and the last rule always applies. |
| Classify.FreeTrialWinsOverSpending | scripts/analyze.py:49-52 | A free-trial status wins over any positive spend. |
| Classify.MissingStatusIsNeutral | scripts/analyze.py:43 | A missing status classifies the same as the text "nan" that `str` gives a NaN cell. |
| Classify.MissingSpendCountsAsZero | scripts/analyze.py:44-46 | A missing or NaN `total_spent` classifies exactly like 0. |
| Rates.Resolved | scripts/analyze.py:60-61 | Dropping the in-trial users leaves no in-trial user. The other three counts are kept, and the length shrinks by the in-trial count. |
| Rates.CountsPartition | scripts/analyze.py:71-74 | The four outcome counts add up to the group size. |
| Rates.RoundedRate | scripts/analyze.py:83-85 | The rounded rate is at most 1.0000 and lies within half a basis point of count/total. |
| Rates.ComputeRates | scripts/analyze.py:58-86 | `total_trials` is the group size, and each count is that outcome's count. `resolved + in_trial = total_trials` and `converted + cancelled + billing_issue = resolved`. Each rate is `None` iff nothing is resolved, else within half a basis point of count/resolved. |
| Rates.NothingResolved | scripts/analyze.py:62-69 | A group of only in-trial users gives zero outcome counts, everyone in trial, and null rates. |
| Calendar.Weekday | scripts/analyze.py:95 | The weekday lies in 0..6. |
| Calendar.WeekStart | scripts/analyze.py:91-95 | The week start is a Monday, at most six days before the day and not after it. |
| Calendar.WeekStartUnique | scripts/analyze.py:95 | That Monday is the only one with this property. |
| Calendar.SameWeekStartIff | scripts/analyze.py:95-104 | Two days get the same week start iff they lie in the same Monday-to-Sunday week. |
| Breakdown.InWeek | scripts/analyze.py:98-104 | A row is in a week's group exactly when it is in the frame and its `week` key (`WeekOf`: the week start of its trial-start day, or none) is that week. |
| Breakdown.InWeekCounts | scripts/analyze.py:104 | A week's group holds each row of that week as many times as the frame does, and no other row. |
| Breakdown.Dated | scripts/analyze.py:97-101 | `dropna(subset=['week'])` keeps a row exactly when it has a trial-start day, and never makes the frame longer. |
| Breakdown.DatedCounts | scripts/analyze.py:97-101 | `dropna(subset=['week'])` keeps each dated row as many times as the frame has it and drops every undated one. |
| Breakdown.EarliestPending | scripts/analyze.py:104 | The scan returns the smallest week key not yet emitted. |
| Breakdown.WeeklyBreakdown | scripts/analyze.py:97-109 | The result has one cohort per distinct week of the dated rows, weeks strictly ascending. Each cohort's rates are `compute_rates` of exactly that week's rows. |
| Breakdown.NextWeekKeepsOrder | scripts/analyze.py:104-107 | Appending the earliest pending week keeps the list ascending and below every remaining key. |
| Breakdown.DatedRowInExactlyOneWeek | scripts/analyze.py:97-109 | Every row with a trial-start day is in the group of exactly one emitted week. |
| Breakdown.UndatedRowInNoWeek | scripts/analyze.py:98-101 | A row without a trial-start day is in no week's group. |
| Breakdown.WeeklyTotalsCountDatedRows | scripts/analyze.py:97-109 | The weekly `total_trials` add up to the number of rows with a trial-start day. |
| Breakdown.WithProduct | scripts/analyze.py:118 | A row is in a product's group exactly when it is in the frame with that `latest_product`. |
| Breakdown.WithProductCounts | scripts/analyze.py:118 | A product's group holds each row of that product as many times as the frame does, and no other row. |
| Breakdown.InsertByResolved | scripts/analyze.py:125 | Inserting a cohort adds exactly it to the multiset of cohorts. |
| Breakdown.SortByResolved | scripts/analyze.py:125 | Sorting is a permutation: the multiset of cohorts is unchanged. |
| Breakdown.InsertKeepsRanked | scripts/analyze.py:125 | Inserting a cohort whose id follows all present ids keeps the list ranked by resolved descending, ties by ascending id. |
| Breakdown.SortByResolvedRanks | scripts/analyze.py:125 | A list in ascending id order, sorted stably by `resolved` descending, is ranked: larger `resolved` first, ties in ascending id order. |
| Breakdown.InsertAfterNoSmaller | scripts/analyze.py:125 | A cohort that beats none of the placed ones goes after all of them, so the sort is stable. |
| Breakdown.ProductGroups | scripts/analyze.py:117-123 | The grouping loop gives one cohort per distinct non-missing product, ids strictly ascending. Each cohort has the rates of exactly that product's rows. |
| Breakdown.NextProductIds | scripts/analyze.py:117-123 | Appending a cohort adds exactly its product id to the ids of the list. |
| Breakdown.NextProductKeepsOrder | scripts/analyze.py:118-123 | Appending the least pending product keeps the ids ascending and below every remaining key. |
| Breakdown.RankingGroupsGivesBreakdown | scripts/analyze.py:117-125 | Sorting the grouped cohorts yields the product breakdown: same products, same rates, ranked order. |
| Breakdown.ProductBreakdown | scripts/analyze.py:112-125 | The result is empty without a `latest_product` column. Otherwise it has one cohort per distinct non-missing product with that product's rates, ranked by `resolved` descending, ties by ascending product id. |
| Breakdown.ProductIdsDistinct | scripts/analyze.py:117-125 | No product appears twice in the product breakdown. |
| Breakdown.TiesKeepProductOrder | scripts/analyze.py:125 | Resolved counts a:5, b:20, c:5 come out as b, a, c. |
| Breakdown.LargerCountGoesFirst | scripts/analyze.py:125 | Of two cohorts, the one with more resolved users goes first. |
| Breakdown.TieGoesLast | scripts/analyze.py:125 | A cohort tied with or below the placed ones is put after them. |
| Report.AppName | scripts/analyze.py:133-140 | A given non-empty name is kept. Otherwise the name is the first row's stripped `project_name`, else its `app_name`, else "App". An IndexError is raised exactly when one of those columns exists and the frame has no rows. A cell is read through `Report.CellText`, where a NaN cell gives "nan". |
| Report.ClassifyAll | scripts/analyze.py:152 | The `outcome` column has one entry per row, keeps the rows in order, and gives each row the outcome `classify_trial_exit` assigns to it. |
| Report.TrialUsers | scripts/analyze.py:142-144 | With a `trial_start_at` column, a row is kept exactly when it is present there; without it, every row is; never more rows than the frame. |
| Report.TrialUsersCounts | scripts/analyze.py:142-144 | Each kept row appears in the trial users as many times as in the frame, each dropped row not at all. |
| Report.KeepWithTrialStart | scripts/analyze.py:143-144 | A row is kept exactly when it is in the frame with `trial_start_at` present; never more rows than the frame. |
| Report.KeepWithTrialStartCounts | scripts/analyze.py:143-144 | The filter keeps each row with `trial_start_at` present as many times as the frame has it, and drops the rest. |
| Report.GenerateJson | scripts/analyze.py:128-168 | IndexError from the app-name fallback comes first. The result is `None` when no trial user remains, and KeyError(`trial_start_date`) when the `trial_start_at` column is absent. Otherwise the report holds the app name and clock values. Its `overall` is `compute_rates` of all kept users, and its weekly and product lists are the breakdowns above. |
| Report.OverallCountsUndatedUsers | scripts/analyze.py:155-156 | The weekly totals never exceed the overall `total_trials`. They fall strictly short when some user has no trial-start day. |
| Report.SnapshotOutcomes | scripts/analyze.py:152 | Rows with status `free_trial`, `cancelled`, a paying `active` row and `billing_issue` get the four outcomes in that order. |
| Report.OneOfEachOutcome | scripts/analyze.py:58-86 | One user of each outcome gives 4 trials, 3 resolved, and every rate 0.3333. |
| Report.OneThird | scripts/analyze.py:83 | One in three rounds to 0.3333. |
| Text.Lower | scripts/analyze.py:43 | `lower()` keeps the length, leaves no capital letter, maps each capital to its small letter and leaves every other character unchanged. |
| Text.LowerIdempotent | scripts/run_daily.py:113 | Lower-casing twice equals lower-casing once. |
| Text.ContainsIsSubstring | scripts/analyze.py:53 | `Text.Contains`, the model of `needle in hay`, answers true iff the needle equals some window of the haystack, in both directions. |
| Text.NotContainedBecauseMissingChar | scripts/run_daily.py:117 | A needle holding a character the haystack lacks is not in it. |
| Text.Remove | scripts/run_daily.py:117 | `replace(c, '')` leaves no `c`, keeps every other character and only those, and returns a string without `c` unchanged. |
| Text.RemoveConcat | scripts/run_daily.py:117 | Removal distributes over concatenation, so the kept characters stay in their order and number. |
| Text.TrimTrailing | scripts/run_daily.py:32 | `rstrip(c)` returns a prefix of the string. What it drops is all `c`, and the result does not end in `c`. |
| Text.StripLeading | scripts/analyze.py:136 | The leading half of `strip()` returns a suffix of the string. What it drops is all whitespace, and the result does not start with whitespace. |
| Text.Strip | scripts/analyze.py:136-138 | `strip()` returns a contiguous part of the string with only whitespace (`IsSpace`, the ASCII part of `str.isspace`) before and after it, and the result neither starts nor ends with whitespace. |
| Text.StripTrailing | scripts/analyze.py:136 | The trailing half of `strip()` returns a prefix of the string. What it drops is all whitespace, and the result does not end with whitespace. |
| Text.LexLessTotal | scripts/run_daily.py:43 | Python string order (`LexLess`, with `LexLessEq`: code-point order, a proper prefix first), used by `sorted` here and by `groupby` at analyze.py:118, is total: two strings are equal or one is less. |
| Text.LexLessTransitive | scripts/run_daily.py:43 | Python string order is transitive. |
| Text.Least | scripts/analyze.py:118 | Returns a member of a non-empty set of strings that is below or equal to all others, the first key `groupby` visits. |
| Text.Greatest | scripts/run_daily.py:43 | Returns a member of a non-empty set of strings that is above or equal to all others, the last element of `sorted`. |
| AppMatch.FirstMatch | scripts/run_daily.py:103-120 | The search returns `None` iff no app matches. Otherwise it returns the first app any of the four tests accepts: `MatchesProjectId` (line 105), `MatchesName` (109), `MatchesSlug` (113) and `MatchesProductPrefix` (117), the first three built on `EitherContains`. |
| AppMatch.MatchAppToConfig | scripts/run_daily.py:96-120 | The result is `None` when no id was detected. Otherwise it is the first app matched by the lower-cased id, or `None` when no app matches. |
| AppMatch.EarlierAppsWin | scripts/run_daily.py:103-106 | If some app matches, an app at or before it is returned, and no earlier app matches. |
| AppMatch.AppWithoutProjectIdMatchesAll | scripts/run_daily.py:105 | An app without `rc_project_id` tests against '' and matches every detected id. |
| AppMatch.AppWithoutProjectIdCatchesAll | scripts/run_daily.py:103-106 | With such an app configured, no detected id goes unmatched. |
| AppMatch.EmptyIdMatchesFirstApp | scripts/run_daily.py:103-110 | An empty detected id matches the first configured app. |
| AppMatch.CapitalInSlugDefeatsPrefixTest | scripts/run_daily.py:117-118 | The product-identifier test never accepts a slug with a capital letter, because the slug is not lower-cased there. |
| AppMatch.SlugTestIgnoresCase | scripts/run_daily.py:113-114 | The slug test gives the same answer for a slug and its lower-cased form. |
| DateFolders.LatestDateFolder | scripts/run_daily.py:27-43 | The result is `None` iff no prefix, once its trailing '/' are stripped, passes the date test. Otherwise it is such a folder name and every other one sorts at or below it. |
| DateFolders.GreatestIsUnique | scripts/run_daily.py:43 | The latest folder is unique, so the order of the prefixes does not matter. |
| DateFolders.TrailingSlashesAreIgnored | scripts/run_daily.py:32 | Prefixes that differ only in trailing slashes name the same folder. |

## Left out

- `load_data` is not part of this model: reading the CSV or gzip file, numeric coercion, timestamp conversion. Its output is the `Table` the model starts from. `trial_start_date` is an optional day number on each row.
- The clock: `date` and `generated_at` are parameters of `Report.GenerateJson`. So is their formatting as `%Y-%m-%d` and ISO text.
- Breakdown.WeeklyBreakdown: `week_start` is kept as a day number, not as the `str(date)` text.
- Breakdown.ProductBreakdown: products are strings. `str()` of a non-string product value is not modelled.
- Rates.RoundedRate: rounds half to even on the exact quotient, where Python's `round` works on a binary float. The contract states only that the rate is within half a basis point. The two may differ when the quotient is exactly halfway (e.g. 1/160).
- Text.Lower: ASCII letters only. Case mapping of non-ASCII letters is not modelled.
- StripLeading, StripTrailing, Strip: whitespace is the ASCII set that `str.isspace()` accepts (tab to carriage return, U+001C to U+001F, space). Non-ASCII whitespace such as U+0085 or U+00A0 is not stripped by the model.
- DateFolders.LatestDateFolder: `strptime(folder, '%Y-%m-%d')` is an abstract predicate parameter. Bucket listing and the iterator over blob prefixes (`find_latest_date_folder` lines 23-30) are left out as I/O.
- AppMatch.AppConfig: an `rc_project_id` present with the value null is not modelled. It would raise in `.lower()`.
- Google Cloud Storage access, `find_export_files`, `detect_app_from_file`, the index update, the command-line drivers and all printing are I/O and are left out.
- Order of rows inside a cohort does not matter to `compute_rates`, so the model does not track pandas row indexes.
