# Aave wallet credit scoring — a Dafny model

This project models the scoring engine of the Aave wallet credit-scoring
system, and the score-range report built from its output.

**Feature extraction** (`features.dfy`). Each wallet's rows are taken from
the loaded transaction table (`transactions.dfy`). The extractor derives:
- the number of transactions, and the number of distinct assets and of
  distinct actions;
- the time family: the mean gap between consecutive sorted timestamps in
  hours, the active days and the transactions per day;
- the action family: one count and one `<action>_ratio` per action, plus
  `action_diversity`;
- the amount family: total, mean, maximum and standard deviation.

**Scoring** (`scoring.dfy`). The score is a base of 500 plus three capped
components (activity, longevity, diversity) and a behaviour adjustment
(+50 for a deposit ratio strictly above one half, −100 for any
liquidation). The sum is clamped to [0, 1000].

**The scorer object** (`scorer.dfy`, class `AaveCreditScorer`):
- It holds the loaded table and a per-wallet score cache.
- `CalculateCreditScore` is lookup-or-compute on that cache.
- `ScoreAllWallets` scores every distinct wallet in first-appearance order.

**The report** (`analysis.dfy`). Scores are put into five half-open
ranges [0,300), [300,500), [500,700), [700,850) and [850,1000), as
`pd.cut(..., right=False)` does. The report counts each range, gives each
count as a percentage of all scores, and lays the result out as a markdown
table.

**Feature lookup.** In the program every feature lives in one flat
dictionary, filled family by family, so a later family overwrites an
earlier key. The model keeps the families in a `Features` datatype.
`Features.Get` reproduces the dictionary's key precedence: amount keys,
then `action_diversity`, then `<action>_ratio`, then raw action counts,
then time keys, then the structural counts. So `deposit_ratio` and
`liquidationcall` are read exactly as the program reads them, even when
an action name collides with another key.

**The cache and reloading.** `load_data` replaces the table but does not
clear the cache. Scores cached for an earlier table therefore survive a
reload. The model keeps this:
- `LoadData` promises that the cache agrees with the table only when the
  cache was empty before.
- The class's `CacheAgrees` predicate is preserved by
  `CalculateCreditScore` and `ScoreAllWallets`, by way of
  `Scorer.CacheLookupFacts` and `Scorer.ScoreAllAgrees`.

**Range labels.** The labels disagree with the boundaries. Because the
ranges are lower-inclusive, a score of 300 is counted under
"Fair (301-500)", 500 under "Good (501-700)", and so on. A score of
exactly 1000 falls in no range, although it is still counted in the
percentage denominator. The model follows the code (see
`Analysis.EdgesOpenUpperRange`). A wallet with at least one row scores
between 400.5 and 950 (`Scoring.WalletScoreRange`), so only wallets
without rows can ever land in "Very Poor".

**Numbers.** Python floats are modelled as exact `real`s. Timestamps are
integer epoch seconds. `timedelta.days` is Euclidean division by 86400 of
a difference that is never negative.

**Parameters.** `stdDev: seq<real> -> real` stands for the sample standard
deviation computed by the numeric library. It is a parameter of the
feature functions and a constant of the scorer.

## Model

| member | source | states |
|---|---|---|
| Transactions.WalletRows | src/credit_scoring.py:119 | the rows of a wallet are exactly as many as the occurrences of the wallet in the `userWallet` column, and each of them belongs to that wallet |
| Transactions.WalletRowsContents | src/credit_scoring.py:119 | the filter keeps every row of the wallet, as many times as the table holds it, and no row of any other wallet |
| Transactions.PresentAmounts | src/credit_scoring.py:103-105 | the non-missing amounts are empty exactly when every row's amount is missing |
| Transactions.PresentAmountsContents | src/credit_scoring.py:103 | `dropna()` keeps each amount value as many times as the amount column holds it, and nothing else |
| Transactions.PresentAssets | src/credit_scoring.py:126 | the present symbols hold each symbol as many times as the asset column holds it; a symbol occurs exactly when some row carries it |
| Seqs.Distinct | src/credit_scoring.py:126-127 | `unique()` returns each value of the column exactly once, and no value outside it |
| Seqs.DistinctFirstAppearance | src/credit_scoring.py:192 | the distinct wallets come out in the order of their first appearance in the table |
| Seqs.SortAscending | src/credit_scoring.py:73 | sorting by timestamp yields a sorted permutation of the timestamps |
| Seqs.SortedEnds | src/credit_scoring.py:80 | the first and last sorted timestamps are the minimum and the maximum |
| Seqs.GapsTelescope | src/credit_scoring.py:74 | the successive differences of the sorted timestamps add up to last minus first |
| Seqs.SumCountsDistinct | src/credit_scoring.py:87 | the per-value counts of `value_counts()` add up to the number of rows |
| Features.SortedGaps | src/credit_scoring.py:73-74 | there is one time difference fewer than there are timestamps, and the differences add up to the span between the earliest and the latest |
| Features.TimeFeaturesOf | src/credit_scoring.py:71-83 | `active_days` is the whole-day span when that is at least 1, and 1 when it is 0, so it is never below 1; `tx_per_day` is the row count over `max(1, span)`; `tx_frequency_hrs` is the mean sorted gap in hours |
| Features.MeanGapTelescopes | src/credit_scoring.py:73-78 | `tx_frequency_hrs` is 0 for a single transaction, and otherwise (latest − earliest) / (n − 1) / 3600 |
| Features.ActionFeaturesOf | src/credit_scoring.py:85-96 | there is a count exactly for each action that occurs, equal to its number of occurrences and at least 1; each ratio is count / total; `action_diversity` is distinct / total, in (0, 1], and 0 without rows |
| Features.ActionCountsSumToTotal | src/credit_scoring.py:87-88 | the per-action counts add up to the number of transactions |
| Features.ActionRatiosSumToOne | src/credit_scoring.py:93-94 | the `<action>_ratio` values over the distinct actions add up to 1 |
| Features.AmountFeaturesOf | src/credit_scoring.py:98-112 | empty when there is no amount column or no amount is present; otherwise `total_amount` is the sum of the present amounts, `avg_amount` is sum / count and at most the maximum, `max_amount` is a present amount no smaller than any other, and `amount_std` is 0 for a single amount |
| Features.AmountStdOfSeveral | src/credit_scoring.py:111 | with two or more amounts, `amount_std` is the standard deviation of the present amounts |
| Features.WalletFeaturesFacts | src/credit_scoring.py:114-138 | a wallet gets an empty record exactly when it has no row; otherwise the record counts the wallet's rows and the distinct asset symbols among them, tallies its actions, has one action count per distinct action, carries the time family exactly when the table has timestamps, and has `action_diversity` == `unique_actions / total_transactions`, within (0, 1] |
| Features.DistinctSymbols | src/credit_scoring.py:126 | `nunique()` of the asset column is the number of distinct symbols carried by the rows |
| Features.RatioAction | src/credit_scoring.py:93 | a key names a ratio only if it is some action followed by `_ratio` |
| Features.RatioKeyRoundTrip | src/credit_scoring.py:93 | the key `<action>_ratio` names exactly that action |
| Scoring.ActivityScore | src/credit_scoring.py:140-142 | at most 200; half a point per transaction up to 400 transactions; 200 from 400 on |
| Scoring.LongevityScore | src/credit_scoring.py:144-146 | at most 100; two points per active day up to 50 days; 100 from 50 on; 0 when the `active_days` key is absent |
| Scoring.DiversityScore | src/credit_scoring.py:148-150 | at most 100; twenty points per distinct asset up to 5 assets; 100 from 5 on |
| Scoring.BehaviorAdjustment | src/credit_scoring.py:152-164 | one of −100, −50, 0 and 50; the bonus is given exactly when the deposit ratio is strictly above 0.5; the result is negative exactly when the `liquidationcall` count is positive |
| Scoring.CalculateBehaviorAdjustment | src/credit_scoring.py:152-164 | the step-by-step accumulation equals the adjustment function |
| Scoring.Clamp | src/credit_scoring.py:183 | the result lies in [0, 1000], equals its input inside that range, and equals the nearer bound outside it |
| Scoring.CreditScore | src/credit_scoring.py:176-183 | for any feature record the score lies in [0, 1000] |
| Scoring.TotalTransactionsKey | src/credit_scoring.py:125 | `total_transactions` is never negative, and is at least 1 for a record built from rows |
| Scoring.ActiveDaysKey | src/credit_scoring.py:146 | the looked-up `active_days` is never negative |
| Scoring.UniqueAssetsKey | src/credit_scoring.py:150 | the looked-up `unique_assets` is never negative |
| Scoring.RawScoreRange | src/credit_scoring.py:176-180 | the unclamped sum lies in [400, 950], and in [400.5, 950] for a record built from at least one row |
| Scoring.CreditScoreUnclamped | src/credit_scoring.py:183 | for a record built from at least one row the clamp changes nothing |
| Scoring.WalletScoreRange | src/credit_scoring.py:171-183 | a wallet's score lies in [0, 1000]; a wallet without rows scores `MIN_SCORE`; one with rows gets the unclamped sum, within [400.5, 950] |
| Scoring.LiquidationLookup | src/credit_scoring.py:161 | the `liquidationcall` key holds the number of liquidation rows |
| Scoring.DepositRatioLookup | src/credit_scoring.py:157 | the `deposit_ratio` key holds the share of deposit rows when there is one, and reads as 0 when there is neither a `deposit` nor a `deposit_ratio` action |
| Scoring.PenaltyIffLiquidated | src/credit_scoring.py:160-162 | a wallet is penalised exactly when it has a `liquidationcall` row |
| Scoring.BonusIffDepositMajority | src/credit_scoring.py:156-158 | a wallet with deposits gets the bonus exactly when more than half of its rows are deposits |
| Scorer.CacheLookupFacts | src/credit_scoring.py:168-185 | a lookup hands out the cached score if there is one, and the computed one otherwise; it keeps every other entry unchanged and adds at most the asked wallet; a wallet with rows ends up cached with the score handed out; a wallet without rows gets `MIN_SCORE` and is not stored |
| Scorer.CacheLookupTwice | src/credit_scoring.py:168-169 | asking a second time returns the same score and leaves the cache as the first call left it |
| Scorer.ScoreAll | src/credit_scoring.py:196-198 | the batch has one row per wallet asked for, in the order asked |
| Scorer.ScoreAllKeeps | src/credit_scoring.py:196-198 | the batch keeps every earlier cache entry unchanged and adds only wallets it scored |
| Scorer.ScoreAllScores | src/credit_scoring.py:196-198 | over distinct wallets, each row holds that wallet's cached score or its freshly computed one |
| Scorer.ScoreAllStores | src/credit_scoring.py:184 | after the batch, every scored wallet that was cached or has rows is cached with the score of its row |
| Scorer.ScoreAllAgrees | src/credit_scoring.py:184 | a cache whose entries are the table's scores stays so through the batch |
| Scorer.ScoreAllCached | src/credit_scoring.py:168-169 | when every wallet is cached, the batch reads the cache and changes nothing |
| Scorer.ScoreAllTwice | src/credit_scoring.py:187-198 | running the batch again on the cache the first run left yields the same rows and the same cache |
| Scorer.AaveCreditScorer.constructor | src/credit_scoring.py:29-32 | a new scorer has no table and an empty cache |
| Scorer.AaveCreditScorer.LoadData | src/credit_scoring.py:65 | the table is installed; the cache is kept |
| Scorer.AaveCreditScorer.CalculateCreditScore | src/credit_scoring.py:166-185 | a cached wallet returns its stored score and changes nothing, even without data; an uncached wallet without data is an error and changes nothing; with data, the result and the new cache are the lookup-or-compute; a cache that holds the table's scores keeps holding them |
| Scorer.AaveCreditScorer.ScoreNext | src/credit_scoring.py:196-198 | one loop step extends the batch by the next wallet |
| Scorer.AaveCreditScorer.ScoreAllWallets | src/credit_scoring.py:187-198 | without data it fails and changes nothing; otherwise it returns one row per distinct wallet in first-appearance order, and the cache the batch leaves; a cache that holds the table's scores keeps holding them |
| Scorer.RecalculateCreditScore | src/credit_scoring.py:166-185 | two calls for the same wallet return the same result |
| Scorer.RescoreAllWallets | src/credit_scoring.py:187-198 | two batch runs return the same result |
| Analysis.BucketOf | src/analyze_scores.py:46-51 | every score in [0, 1000) falls in exactly one of the five ranges; a negative score and one at or above 1000 fall in none |
| Analysis.BucketBounds | src/analyze_scores.py:46-51 | range i holds exactly the scores in [bins[i], bins[i+1]) |
| Analysis.EdgesOpenUpperRange | src/analyze_scores.py:46-51 | 300, 500, 700 and 850 open the upper range, whose label starts one above the edge; 0 is in the first range; 1000 is in none |
| Analysis.RangeCountsCount | src/analyze_scores.py:52 | the count of range i is the number of scores in range i, zero included |
| Analysis.RangeCountsTotal | src/analyze_scores.py:52 | the five counts plus the out-of-range scores add up to the number of scores |
| Analysis.RangeCountsCoverAll | src/analyze_scores.py:52 | when every score lies in [0, 1000), the counts add up to the number of scores |
| Analysis.Percentages | src/analyze_scores.py:53 | one percentage per range, each count / number of scores × 100 (out-of-range scores are in the denominator), undefined for every range when there are no scores |
| Analysis.PercentagesBounds | src/analyze_scores.py:53 | every percentage lies between 0 and 100 |
| Analysis.PercentagesTotal | src/analyze_scores.py:53 | the percentages add up to the share of in-range scores: at most 100, and exactly 100 when every score is in range |
| Analysis.ScoreRangeReport | src/analyze_scores.py:56-61 | the report is the heading, a blank line and the two table-header lines, followed by exactly one row per range in range order, carrying its label, its count and its percentage |
| Analysis.WalletBucket | src/analyze_scores.py:51 | a wallet with rows never lands in "Very Poor (0-300)"; a wallet without rows always does |

## Left out

- Loading: reading and parsing the JSON file, `json_normalize`, and the `to_datetime` / `to_numeric` coercions. The table is modelled as the loader's output. A missing amount (NaN after coercion) is `None`, and the presence of the timestamp and amount columns is a pair of table flags.
- Timestamp and asset columns: NaT values inside an existing timestamp column, and a table without an `actionData.assetSymbol` column. `unique_assets` counts the distinct symbols present.
- Features.AmountFeaturesOf: `amount_std` for two or more amounts is the `stdDev` parameter, not a computed standard deviation, because the sample standard deviation needs a square root and floating point.
- Features.WalletFeatures, Scoring.WalletScore, Scoring.RawScore, Analysis.RangeCounts: these specification functions carry their properties in the lemmas listed above, not in their own contracts.
- Floating point: floats are exact reals. Rounding, NaN propagation and the int/float mix of the score are not modelled.
- Analysis.Percentages: the `.round(1)` rounding is not modelled. A zero-by-zero percentage (no scores at all) is `None` rather than NaN.
- Analysis.ScoreRangeReport: the report is a sequence of structured lines, not text. The `{count:,}` and `{pct}%` formatting and the line concatenation are not modelled.
- Exceptions: the error for a missing data path, and the wrapping of any load failure in `ValueError`, are left out with the loader. A missing table is the `NoTransactionData` failure.
- Console and files: `print`, the `tqdm` progress bar, the optional CSV write and directory creation in `score_all_wallets`, the command-line parsing and the score summary.
- Other report code: `load_scores`, the plots and the report's file output.
- run_pipeline.py: it only creates directories and calls the two command-line entry points.
