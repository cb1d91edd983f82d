# Decision, reporting and operations dashboards: a verified model of their rules

This project models, in Dafny, the rules behind three small analytics
dashboards, and proves properties of that model:

- **decision-intelligence-live**: the policy filter that marks actions
  eligible (`risk <= max_risk` and `roi >= min_roi`), the budgeted 0/1
  knapsack over eligible actions (a dynamic programme over cost in thousands
  of CLP with an item cap, a best-cell search, a walk along the parent links and the
  selection summary), and the counterfactual advisor that suggests the
  smallest relaxation of the risk ceiling or of the ROI floor that enables
  enough actions (`"ok"`, `"warn"` or `"fix"`).
- **executive-report-factory**: the scan of the hourly "good" flags into
  contiguous windows of at least `min_len` hours, and the integer KPIs
  (rows, good hours, longest window).
- **ops-cell-lite**: the anomaly flags and severity of each time step
  (`OK`, `Medium`, `High`, `Critical`), the top three drivers by distance to
  their threshold, the recommendation for the dominant driver, the shortlist
  of at most twelve incidents ordered by severity then recency, the lookup of
  an incident's latest review, and the Approve/Reject update of the
  `approved` and `rejected` sets.

Layout, one module per file:

| file | module | contents |
|---|---|---|
| `basics.dfy` | `Basics` | `Option` |
| `sorting.dfy` | `Sorting` | the descending sort the dashboards use, as a stable insertion sort. Stability is promised where the source uses Python's `sorted`. pandas `sort_values` uses quicksort by default, which is not stable, so there only the order by key is promised |
| `eligibility.dfy` | `Eligibility` | `Policy`, `Action`, `clamp`, the eligibility rule |
| `knapsack.dfy` | `Knapsack` | the optimum of the dynamic programme as a recurrence, and the imperative table fill, best-cell search, walk and selection |
| `counterfactual.dfy` | `Counterfactual` | the relaxation ladders and the advisor |
| `windows.dfy` | `Windows` | contiguous good windows and the KPIs |
| `ops_rules.dfy` | `OpsRules` | flags, severity, drivers, recommendation, shortlist |
| `review.dfy` | `Review` | review log lookup and the review board |

The operations that change state step by step are methods with loops and
invariants. These are the knapsack table fill (`RelaxRow`, `FillTable`), the
best-cell search (`PickBest`), the walk along the parent links (`WalkBack`), the
counterfactual's two ladders (`Advise`), the window scan
(`ContiguousWindows`) and the reversed lookup of the review log
(`LatestReviewer`). The session state of the review panel is a class,
`ReviewBoard`, with the log and the two sets as fields. The rest are
functions.

Every method is proved against a specification: the recurrence `Opt`
for the knapsack table, `FirstHit` for the ladders, `WindowsOf` (sound,
ordered, complete maximal runs) for the windows, `LastEntry` for the log
lookup, and `Consistent` for the board. Costs are floored to thousands before
the dynamic programme. A selection whose costs are not whole thousands can
therefore exceed the budget in CLP, so the CLP bound is proved only for
whole-thousand costs. The unit bound is proved for all costs.

## Model

| member | source | states |
|---|---|---|
| Eligibility.Clamp | decision-intelligence-live/app.py:52-53 | the result lies in `lo..hi`, equals `x` inside the range and the nearer bound outside it |
| Eligibility.ScoreActions | decision-intelligence-live/app.py:100-116 | one row per action, same action, flagged eligible exactly when `risk <= max_risk` and `roi >= min_roi` |
| Eligibility.EligibleCount | decision-intelligence-live/app.py:197 | the number of eligible actions never exceeds the number of actions |
| Eligibility.EligibleCountIsFlagCount | decision-intelligence-live/app.py:197 | the count equals the number of rows `ScoreActions` flags eligible |
| Eligibility.EligibilityIgnoresScore | decision-intelligence-live/app.py:107-114 | budget, `max_actions` and `risk_penalty` change neither the flags nor the count |
| Eligibility.RelaxingNeverShrinks | decision-intelligence-live/app.py:111-114 | raising the risk ceiling or lowering the ROI floor never reduces the eligible count |
| Knapsack.Candidates | decision-intelligence-live/app.py:124 | exactly the eligible rows' actions are candidates |
| Knapsack.CandidatesCount | decision-intelligence-live/app.py:124 | each action is a candidate exactly as often as eligible rows carry it |
| Knapsack.Units | decision-intelligence-live/app.py:130 | each candidate's cost in whole thousands, floored |
| Knapsack.Values | decision-intelligence-live/app.py:131 | each candidate's scaled value, position by position |
| Knapsack.Discretise | decision-intelligence-live/app.py:128-135 | the instance has one cost and one value per candidate |
| Knapsack.Witness | decision-intelligence-live/app.py:137-154 | a reachable cell `(k, b)` holds the value of a subset of exactly `k` candidates costing exactly `b` units within the budget |
| Knapsack.OptDominates | decision-intelligence-live/app.py:137-154 | every such subset is reachable and worth no more than the cell's best |
| Knapsack.OptSupport | decision-intelligence-live/app.py:139-150 | reachable cells have `0 <= b`, only `b == 0` with no items, and `b <= B` with items |
| Knapsack.RelaxRow | decision-intelligence-live/app.py:146-154 | one pass of the innermost loop is the fold `RelaxUpTo` over costs `0..B` of row `k`; it yields row `k + 1` of the recurrence, keeps every cell and never lowers one, and each parent link names a cell one item and one candidate cost lower, worth at least the cell minus that candidate's value |
| Knapsack.RelaxCell | decision-intelligence-live/app.py:147-154 | one cell step is `RelaxStep`: it fills or raises cell `b + c` of row `k + 1` within `B`, links it to `(k, b, idx)`, and keeps the row and its links valid |
| Knapsack.FillTable | decision-intelligence-live/app.py:139-154 | the table and its links are the fold `TableUpTo` over all candidates; every row `dp[k]` equals the recurrence `Opt(n, k, ·)` and every parent link points one item and one candidate's cost lower, to a cell worth at least the linked cell minus that candidate's value |
| Knapsack.AddCandidate | decision-intelligence-live/app.py:143-154 | adding one candidate to every row, item count descending, is the fold `AddDown`; rows of the first `idx` candidates become rows of the first `idx + 1`, links stay valid |
| Knapsack.OptSeed | decision-intelligence-live/app.py:139-141 | row 0 is the seed cell alone: cost 0, value 0 |
| Knapsack.PickBest | decision-intelligence-live/app.py:157-161 | the best value over rows `1..max_items` (or `-1`), its cell, and no strictly earlier row reaching it |
| Knapsack.BestIsOptimal | decision-intelligence-live/app.py:157-161 | the best cell's value is the best total over non-empty subsets within `max_items` and `B`, and some such subset reaches it |
| Knapsack.FeasibleWiden | decision-intelligence-live/app.py:130-150 | a subset within a smaller item cap and budget is within any larger cap and budget |
| Knapsack.BudgetNeverLowersBest | decision-intelligence-live/app.py:130-161 | a larger budget (or item cap) never lowers the best total of a non-empty subset |
| Knapsack.BudgetKeepsSolutions | decision-intelligence-live/app.py:157-164 | if a larger budget (or item cap) gives "no solution", so does every smaller one |
| Knapsack.WalkBack | decision-intelligence-live/app.py:166-173 | the walk from `(best_k, best_b)` is `LinkWalk` of the parent links, lowest row first; it collects `best_k` candidate indices whose unit costs add up to `best_b` and whose values add up to at least `best_v` |
| Knapsack.LinkWalk | decision-intelligence-live/app.py:166-173 | following the parent links down from row `k` lists at most `k` candidate indices |
| Knapsack.IdMask | decision-intelligence-live/app.py:174-175 | a candidate is kept exactly when its id is among the chosen ids |
| Knapsack.PickChosen | decision-intelligence-live/app.py:174-175 | a row is picked exactly when it is a candidate whose id the walk names, and no row more often than among the candidates |
| Knapsack.SelectChosen | decision-intelligence-live/app.py:175-185 | the picked rows, each as often as picked, in descending scaled value |
| Knapsack.NoGoodWhenBestNegative | decision-intelligence-live/app.py:163-164 | "no solution" means no non-empty subset within the cap and budget has a non-negative value |
| Knapsack.GoodWhenBestNonNegative | decision-intelligence-live/app.py:157-164 | a non-negative best cell means such a subset exists |
| Knapsack.TableSupport | decision-intelligence-live/app.py:147-150 | every key of the table is a unit cost between 0 and `B` |
| Knapsack.WithinBudget | decision-intelligence-live/app.py:130-134 | with whole-thousand costs, a unit total within `budget // 1000` keeps the CLP total within the budget |
| Knapsack.PickChosenFacts | decision-intelligence-live/app.py:174-175 | the `isin` selection is non-empty, takes rows from the candidates, and with unique ids keeps at most one row per walked index and no more units than the walk |
| Knapsack.SelectChosenFacts | decision-intelligence-live/app.py:175-185 | the selection never repeats a candidate, is ordered by descending scaled value (`int(score * 1000)`), is non-empty when the walk is, and with unique ids holds no more rows and units than the walk |
| Knapsack.MaskValueOfList | decision-intelligence-live/app.py:173-175 | the rows of a list of indices without repetitions are worth exactly the values the list adds up |
| Knapsack.SelectReachesBest | decision-intelligence-live/app.py:166-175 | with distinct ids and a walk without repeated indices, the selection is worth exactly the best total |
| Knapsack.KnapsackSelect | decision-intelligence-live/app.py:119-185 | "no eligible actions" exactly when there are no candidates, and then nothing is selected; "no solution" exactly when no non-empty subset within cap and budget is non-negative; otherwise the best cell `(best_k, best_b)` of the table the loops build holds the best total over such subsets, the walk is the parent-link walk from that cell (1 to `max_items` indices within `B`, worth at least the best total), and the selection is exactly the rows whose id the walk names, in descending scaled value, with its count and CLP cost in the summary; with unique ids at most `max_items` rows and `budget // 1000` units, within the CLP budget for whole-thousand costs, and worth exactly the best total when the walk repeats no index |
| Knapsack.TwoCandidatesTable | decision-intelligence-live/app.py:137-154 | for two candidates of 1000 CLP worth 7 and 5, a budget of 2000 CLP and two items, the table holds the seed, cell `(1, 1)` worth 7 linked to the seed through the first candidate, and cell `(2, 2)` worth 12 linked to `(1, 1)` through the second |
| Knapsack.TwoCandidatesWalk | decision-intelligence-live/app.py:157-173 | for those two candidates the only best cell is `(2, 2)`, worth 12, and its walk is the first candidate, then the second |
| Knapsack.TwoCandidatesSelection | decision-intelligence-live/app.py:174-185 | that walk selects both rows, the one worth 7 first |
| Knapsack.TwoCandidatesPinned | decision-intelligence-live/app.py:157-185 | for those two candidates, every best cell and walk that meet the clauses of `KnapsackSelect` give the value 12 and select both rows, the one worth 7 first |
| Counterfactual.Target | decision-intelligence-live/app.py:198 | `max_actions` clamped to `3..8` |
| Counterfactual.RiskProbe | decision-intelligence-live/app.py:207 | only the risk ceiling changes, kept within `0.05..0.95` |
| Counterfactual.RoiProbe | decision-intelligence-live/app.py:221 | only the ROI floor changes, never below 0 |
| Counterfactual.RiskLadder | decision-intelligence-live/app.py:206-207 | one probe per risk step |
| Counterfactual.RoiLadder | decision-intelligence-live/app.py:220-221 | one probe per ROI step |
| Counterfactual.FirstHit | decision-intelligence-live/app.py:206-216 | the first probe reaching the target, with every earlier probe short of it, or none reaching it |
| Counterfactual.FirstHitAt | decision-intelligence-live/app.py:209-216 | a reaching probe with none reaching before it is the one found |
| Counterfactual.RiskSuggestion | decision-intelligence-live/app.py:204-216 | at most one suggestion; none exactly when no probe of the risk ladder reaches the target; otherwise it changes `max_risk` from the current ceiling to one under which the target is reached |
| Counterfactual.RoiSuggestion | decision-intelligence-live/app.py:218-230 | at most one suggestion; none exactly when no probe of the ROI ladder reaches the target; otherwise it changes `min_roi` from the current floor to one under which the target is reached |
| Counterfactual.Advise | decision-intelligence-live/app.py:188-239 | "ok" with no suggestions exactly when enough actions are eligible; otherwise the risk suggestion then the ROI suggestion, "warn" exactly when there is none and "fix" with one or two; the status is always one of the three |
| Counterfactual.RiskLadderMonotone | decision-intelligence-live/app.py:204-216 | later risk probes never enable fewer actions |
| Counterfactual.RoiLadderMonotone | decision-intelligence-live/app.py:218-230 | later ROI probes never enable fewer actions |
| Counterfactual.RiskSuggestionIsMinimalFix | decision-intelligence-live/app.py:204-216 | the risk suggestion strictly raises the ceiling, applying it reaches the target, and no lower ceiling on the ladder does |
| Counterfactual.RoiSuggestionIsMinimalFix | decision-intelligence-live/app.py:218-230 | the ROI suggestion strictly lowers the floor, applying it reaches the target, and no higher floor on the ladder does |
| Counterfactual.SuggestionIffTopProbeReaches | decision-intelligence-live/app.py:204-230 | a ladder yields a suggestion exactly when its most relaxed probe reaches the target |
| Windows.RunsOverlapOnlyIfEqual | executive-report-factory/app.py:102-122 | two maximal good runs that share an hour are the same run |
| Windows.ContiguousWindows | executive-report-factory/app.py:95-124 | empty input gives no windows; otherwise the windows are exactly the maximal good runs of at least `min_len` hours, with their hour counts, in order and separated by a bad hour |
| Windows.StepKeepsScanned | executive-report-factory/app.py:103-122 | one step of the scan keeps the windows found so far sound, ordered and complete up to the current hour |
| Windows.GoodIn | executive-report-factory/app.py:131 | the good-hour count of a prefix never exceeds its length |
| Windows.GoodInIsFlagCount | executive-report-factory/app.py:131 | the good-hour count is the number of hours flagged good |
| Windows.LongestWindow | executive-report-factory/app.py:133 | 0 for no windows, otherwise the hours of some window and at least those of every window |
| Windows.ComputeKpis | executive-report-factory/app.py:127-129 | empty input gives zero rows, good hours and best window |
| Windows.RunWithinCount | executive-report-factory/app.py:131-133 | a run of good hours is no longer than the good-hour count |
| Windows.KpisBounds | executive-report-factory/app.py:127-143 | for the windows of the scan, best window <= good hours <= rows, and good hours counts the good flags |
| OpsRules.DetectFlags | ops-cell-lite/app.py:144-150 | a missing volume drop (NaN where the rolling mean has no value) never raises its flag |
| OpsRules.FlagsAboveThreshold | ops-cell-lite/app.py:147-150 | each flag is raised exactly when its signal is strictly above its threshold |
| OpsRules.AnomalyCount | ops-cell-lite/app.py:152 | at most 4; 0 exactly when no flag is raised, 4 exactly when all are |
| OpsRules.Sev | ops-cell-lite/app.py:155-163 | "Critical" exactly for 3 or more flags, "High" for 2, "Medium" for 1, "OK" otherwise |
| OpsRules.Severity | ops-cell-lite/app.py:152-165 | a sample is "OK" exactly when no flag is raised, "Medium" with one flag, "High" with two, "Critical" with three or more |
| OpsRules.RankOf | ops-cell-lite/app.py:339 | the rank of the severity's label in `{"Critical": 3, "High": 2, "Medium": 1}`, 0 exactly for "OK" |
| OpsRules.RankIsCappedCount | ops-cell-lite/app.py:339 | the rank of a severity is its anomaly count capped at 3, so more anomalies never rank lower |
| OpsRules.StricterThresholdsNeverRaiseSeverity | ops-cell-lite/app.py:147-165 | raising every threshold never raises the anomaly count or the severity rank |
| OpsRules.DriverAt | ops-cell-lite/app.py:175-209 | the driver names its signal and its delta is value minus threshold |
| OpsRules.Take | ops-cell-lite/app.py:212 | `xs[:n]`: length `min(n, |xs|)`, a prefix |
| OpsRules.TakeWithin | ops-cell-lite/app.py:212 | a prefix holds nothing more often than the whole |
| OpsRules.RaisedFromLength | ops-cell-lite/app.py:173-209 | one driver per raised flag from a signal position on |
| OpsRules.RaisedFromMembers | ops-cell-lite/app.py:173-209 | each driver names a raised signal and lies strictly above its threshold |
| OpsRules.RaisedFromOrdered | ops-cell-lite/app.py:173-209 | drivers come in the order latency, errors, volume, saturation |
| OpsRules.RaisedFromComplete | ops-cell-lite/app.py:173-209 | every raised flag has its driver |
| OpsRules.RaisedDrivers | ops-cell-lite/app.py:169-209 | one driver per raised flag |
| OpsRules.RaisedDriversCount | ops-cell-lite/app.py:173-209 | as many drivers as the anomaly count |
| OpsRules.RaisedDriversAboveThreshold | ops-cell-lite/app.py:173-209 | every driver is for a raised flag, with a positive excess over its threshold |
| OpsRules.RaisedDriversInSignalOrder | ops-cell-lite/app.py:173-209 | drivers follow the fixed signal order, so no signal repeats |
| OpsRules.RaisedDriversComplete | ops-cell-lite/app.py:173-209 | every raised signal has a driver |
| OpsRules.RaisedSignalDeterminesDriver | ops-cell-lite/app.py:173-209 | two drivers for the same signal are the same driver |
| OpsRules.TopDrivers | ops-cell-lite/app.py:169-212 | `min(3, anomaly count)` drivers; that they are the three largest by absolute excess is `TopDriversAreTheLargest` |
| OpsRules.TopDriversCount | ops-cell-lite/app.py:169-212 | `min(3, anomaly count)` drivers |
| OpsRules.TopDriversAboveThreshold | ops-cell-lite/app.py:169-212 | every top driver is for a raised flag and lies strictly above its threshold |
| OpsRules.TopDriversOrdered | ops-cell-lite/app.py:211-212 | by descending absolute excess, ties in signal order (the sort is stable) |
| OpsRules.SortedPrefixDistinctSignals | ops-cell-lite/app.py:211-212 | sorting drivers in signal order by absolute excess and taking a prefix never repeats a signal |
| OpsRules.TopDriversDistinctSignals | ops-cell-lite/app.py:169-212 | no signal appears twice among the top drivers |
| OpsRules.TopDriversWithinRaised | ops-cell-lite/app.py:211-212 | every top driver is one of the raised drivers |
| OpsRules.TakeDropsOnlySmaller | ops-cell-lite/app.py:211-212 | in a list sorted by absolute excess with ties in signal order, an element past the prefix is no larger than any element kept, and on a tie comes no earlier in signal order |
| OpsRules.SortedPrefixKeepsLargest | ops-cell-lite/app.py:211-212 | sorting drivers in signal order by absolute excess and taking a prefix leaves out only drivers smaller than each one kept, or equal and of a later signal |
| OpsRules.TopDriversAreTheLargest | ops-cell-lite/app.py:171-212 | the top drivers are the largest by distance to the threshold: every raised driver left out has a smaller absolute excess than each driver kept, or the same excess and a later signal |
| OpsRules.RecommendationFollowsMainDriver | ops-cell-lite/app.py:215-230 | the advice depends only on the first driver's signal and is never the no-action text when there is a driver |
| OpsRules.RecommendationOfSample | ops-cell-lite/app.py:219-220 | the no-action text exactly when no flag is raised |
| OpsRules.Recommendation | ops-cell-lite/app.py:215-230 | the no-action text exactly without drivers, otherwise the text for the column name of the first driver's signal, never the runbook fallback |
| OpsRules.NoActionIffSeverityOk | ops-cell-lite/app.py:155-163 | the no-action text exactly when the severity is "OK" |
| OpsRules.NotOk | ops-cell-lite/app.py:338 | exactly the samples whose severity is not "OK", each as often as in the input |
| OpsRules.RankedCandidates | ops-cell-lite/app.py:338-340 | the ranked candidates hold exactly the not-OK rows, each as often as in the input |
| OpsRules.Shortlist | ops-cell-lite/app.py:338-340 | at most twelve rows, all of them not-OK rows, none more often than in the input |
| OpsRules.RankedCandidatesOrdered | ops-cell-lite/app.py:338-340 | the candidates are ordered by rank, then by timestamp, both descending: the order of the two-key `sort_values(["rank", "ts"])` |
| OpsRules.RankedCandidatesPermutation | ops-cell-lite/app.py:338-340 | the ranked candidates are a permutation of the not-OK rows |
| OpsRules.ShortlistFacts | ops-cell-lite/app.py:338-340 | at most 12 rows, taken from the samples, none "OK", each of rank at least 1 |
| OpsRules.ShortlistOrdered | ops-cell-lite/app.py:340 | the shortlist is ordered by rank, then by timestamp |
| OpsRules.ShortlistWithinCandidates | ops-cell-lite/app.py:340 | the shortlist takes rows only from the not-OK rows |
| OpsRules.ShortlistKeepsFewCandidates | ops-cell-lite/app.py:340 | with at most 12 not-OK rows, the shortlist is all of them |
| OpsRules.TakeDropsOnlyLater | ops-cell-lite/app.py:340 | in a rank-then-time order, a row past the head ranks after every row kept |
| OpsRules.ShortlistDropsOnlyLaterRows | ops-cell-lite/app.py:338-340 | every not-OK row left out ranks after every row kept, by severity and then by recency |
| Sorting.Insert | ops-cell-lite/app.py:211 | inserting keeps every element and adds the new one |
| Sorting.InsertSorted | ops-cell-lite/app.py:211 | inserting into a descending list keeps it descending |
| Sorting.SortDesc | ops-cell-lite/app.py:211 | the result is a permutation of the input, in descending key order |
| Sorting.SortDescIsStable | ops-cell-lite/app.py:211 | elements with equal keys keep their input order |
| Review.LastEntry | ops-cell-lite/app.py:414-418 | the index of an entry for the incident with none after it, or none when the log has no entry for it |
| Review.ReviewerOf | ops-cell-lite/app.py:412-418 | decision and note of the latest entry for the incident, or two empty strings when the log has none |
| Review.LatestReviewer | ops-cell-lite/app.py:412-418 | the decision and note of the latest entry for the incident, or two empty strings when there is none |
| Review.LastEntryAt | ops-cell-lite/app.py:415-418 | an entry for the incident with none after it is the one the lookup finds |
| Review.AppendedEntryIsLatest | ops-cell-lite/app.py:487 | an appended entry becomes its incident's latest and leaves every other incident's latest unchanged |
| Review.PrefillIndex | ops-cell-lite/app.py:469-474 | the radio starts on "(sin decisión)" exactly for no recorded decision, on "Approve" exactly for "Approve", and on "Reject" for "Reject" |
| Review.Strip | ops-cell-lite/app.py:485 | a slice of the note with only whitespace removed either side, and no whitespace left at either end |
| Review.StripStart | ops-cell-lite/app.py:485 | a suffix with only whitespace removed in front and none left there |
| Review.StripEnd | ops-cell-lite/app.py:485 | a prefix with only whitespace removed behind and none left there |
| Review.RecordKeepsConsistent | ops-cell-lite/app.py:487-493 | appending a decision and moving its incident into the matching set keeps the sets consistent with the log |
| Review.ReviewBoard.constructor | ops-cell-lite/app.py:343-348 | an empty log and empty sets, consistent |
| Review.ReviewBoard.Save | ops-cell-lite/app.py:477-495 | "(sin decisión)" records nothing; any other choice appends the entry with the stripped note, "Approve" moves the incident into `approved` and out of `rejected`, anything else the reverse; the sets stay consistent with the log |
| Review.ReviewBoard.PrefillAgreesWithSets | ops-cell-lite/app.py:469-474 | on a consistent board the radio starts on "Approve" exactly for approved incidents, and on "Reject" only for rejected ones |
| Review.ReviewBoard.NeverBoth | ops-cell-lite/app.py:488-493 | no incident is both approved and rejected |

## Left out

- Scoring: the floating-point score (`benefit * confidence - risk_penalty * risk - 0.25 * effort`) and its scaling by 1000 are not modelled. An action carries its scaled integer value, and eligibility does not depend on the score.
- Eligibility.ScoreActions: risk, ROI and the policy thresholds are exact reals, where the source compares binary floating-point numbers, so rounding at a threshold is not captured.
- Counterfactual.RiskProbe: the probe `max_risk + step` is exact. In binary floating point `0.7 + 0.1` is `0.7999999999999999`, so an action with risk 0.8 stays ineligible on that probe in the source but is eligible in the model.
- Counterfactual.RoiProbe: the probe `min_roi - step` is exact. In binary floating point `0.4 - 0.1` is `0.30000000000000004`, so an action with ROI 0.3 stays ineligible on that probe in the source but is eligible in the model.
- The display reordering of `score_actions` (eligible first, by score) is not modelled. Knapsack.KnapsackSelect takes the candidates in the order of its input rows; the table's links and so the walk depend on that order, and every promise above holds whatever the order.
- Knapsack.KnapsackSelect: orders the selection by the scaled value `int(score * 1000)`, where the source sorts by the float `score`. Rows with equal scaled value come out in candidate order, while the source orders them by their scores. Two rows with scores 0.0071 and 0.0079 are both worth 7: the source lists the 0.0079 row first whatever their order among the candidates.
- Knapsack.KnapsackSelect: promises that the selection is worth the table's best value `best_v` only when the ids are distinct and the walk repeats no index. A later candidate can overwrite a cell that an earlier parent link still names. Two candidates of 1 unit each, worth 1 and 10, with a budget of 2 units and `max_items = 2`, give `best_v = 11`. The walk then visits the second candidate twice, so the `isin` selection holds only that candidate, worth 10.
- Knapsack.KnapsackSelect: when several cells of the first best row hold the best value, the cell is not pinned down (see Knapsack.PickBest), so neither is the walk among those cells' walks.
- Knapsack.KnapsackSelect: bounds the CLP cost of the selection by the budget only when every candidate cost is a whole number of thousands. Costs are floored to thousands, so for other costs only the unit bound holds.
- Knapsack.KnapsackSelect: `max_items` is a natural number. A negative value makes the source fail on the empty table, so it is outside the model.
- Knapsack.KnapsackSelect: the summary's `selected_score_sum` (a float) and the `method` and `note` fields are not modelled. The sum of scaled values stands in for the score sum.
- Knapsack.PickBest: scans each row's cells in ascending unit cost, where the source follows the insertion order of the row's dictionary. The best value is the same either way, but on ties the cell found can differ.
- Counterfactual.Advise: the `message` and `why` texts are not modelled.
- Windows.ContiguousWindows: windows carry hour indices and hour counts. Their timestamps, average and minimum score and maximum wind, cloud and precipitation are not modelled, nor is the data frame that holds them.
- Windows.ComputeKpis: `avg_score`, `good_hours_pct` and the score quantiles are floating-point statistics and are not modelled.
- The rolling mean behind `vol_drop_pct` is not modelled. The volume drop is an input that is absent (`None`) where the rolling window has too few points, and an absent value never raises the flag.
- OpsRules.Recommendation: the final fallback text of `recommendation_from_drivers` is modelled but never returned. Driver signals are a closed datatype of the four signals the drivers are built from, and `Name` maps each to one of the four column names the advice checks.
- Review.Strip: removes the characters below 128 that Python's `strip` removes (space, tab, newline, vertical tab, form feed, carriage return and the separators `\x1c` to `\x1f`). The source's `strip` also removes the whitespace above 127, such as `\x85`, `\xa0` and the Unicode spaces, which the model keeps.
- Review.ReviewBoard.Save: the timestamp (`now_iso()`) is a parameter. The warning and success messages and the rerun of the page are not modelled.
- The incident id (`INC-HHMM-severity`) is an input string. The data generators, the incident list assembly, file and network I/O, random numbers, charts and the rest of the Streamlit page are not modelled, nor is the anomaly-radar-control dashboard.
