/**
 * Per-wallet feature extraction: the structural counts, the time, action
 * and amount feature families, and the flat key lookup through which the
 * scoring formula reads them.
 */
module Features {
  import opened Wrappers
  import opened Seqs
  import opened Transactions

  const SecondsPerHour := 3600
  const SecondsPerDay := 86400

  /** `tx_frequency_hrs`, `active_days`, `tx_per_day`. */
  datatype TimeFeatures = TimeFeatures(txFrequencyHrs: real, activeDays: nat, txPerDay: real)

  /**
   * The action family: one raw count and one `<action>_ratio` per distinct
   * action, plus `action_diversity`.
   */
  datatype ActionFeatures = ActionFeatures(
    counts: map<string, nat>,
    ratios: map<string, real>,
    diversity: real)

  /** `total_amount`, `avg_amount`, `max_amount`, `amount_std`. */
  datatype AmountFeatures = AmountFeatures(
    totalAmount: real,
    avgAmount: real,
    maxAmount: real,
    amountStd: real)

  /**
   * The feature record of a wallet with at least one row. A family whose
   * preconditions are not met is `None` (its keys are absent).
   */
  datatype Features = Features(
    totalTransactions: nat,
    uniqueAssets: nat,
    uniqueActions: nat,
    time: Option<TimeFeatures>,
    actions: ActionFeatures,
    amounts: Option<AmountFeatures>)

  /** Seconds from the earliest to the latest timestamp. */
  function Spread(ts: seq<int>): int
    requires |ts| >= 1
  {
    MaxInt(ts) - MinInt(ts)
  }

  /** Whole days between the earliest and the latest timestamp (`timedelta.days`). */
  function SpanDays(ts: seq<int>): nat
    requires |ts| >= 1
  {
    Spread(ts) / SecondsPerDay
  }

  /** `total` seconds spread over `n` intervals, in hours per interval. */
  function MeanHours(total: int, n: nat): real
    requires n > 0
  {
    total as real / n as real / SecondsPerHour as real
  }

  /**
   * The gaps between consecutive sorted timestamps: one fewer than the
   * timestamps, adding up to the distance from the earliest to the latest.
   */
  lemma SortedGaps(ts: seq<int>)
    requires |ts| >= 1
    ensures |Gaps(SortAscending(ts))| == |ts| - 1
    ensures SumInts(Gaps(SortAscending(ts))) == Spread(ts)
  {
    var sorted := SortAscending(ts);
    SortedEnds(ts, sorted);
    GapsTelescope(sorted);
  }

  /** `tx_frequency_hrs`: the mean gap between consecutive sorted timestamps, in hours. */
  function TxFrequencyHours(ts: seq<int>): real {
    var gaps := Gaps(SortAscending(ts));
    if |gaps| == 0 then 0.0 else MeanHours(SumInts(gaps), |gaps|)
  }

  /**
   * Time features of a non-empty set of timestamps: the mean gap in hours,
   * the day span floored at 1, and transactions per day.
   */
  function TimeFeaturesOf(ts: seq<int>): (r: TimeFeatures)
    requires |ts| >= 1
    ensures r.txFrequencyHrs == TxFrequencyHours(ts)
    ensures r.activeDays >= 1
    ensures SpanDays(ts) == 0 ==> r.activeDays == 1
    ensures SpanDays(ts) >= 1 ==> r.activeDays == SpanDays(ts)
    ensures r.txPerDay == |ts| as real / r.activeDays as real
  {
    var span := SpanDays(ts);
    var days: nat := if span < 1 then 1 else span;
    TimeFeatures(TxFrequencyHours(ts), days, |ts| as real / days as real)
  }

  /**
   * The mean gap telescopes: zero for a single timestamp, and for two or
   * more the distance from the earliest to the latest over one fewer than
   * their number.
   */
  lemma MeanGapTelescopes(ts: seq<int>)
    requires |ts| >= 1
    ensures |ts| == 1 ==> TxFrequencyHours(ts) == 0.0
    ensures |ts| >= 2 ==> TxFrequencyHours(ts) == MeanHours(Spread(ts), |ts| - 1)
  {
    SortedGaps(ts);
  }

  /** `af` holds the count and the share of every action in `acts`, and nothing else. */
  ghost predicate Tallies(af: ActionFeatures, acts: seq<string>) {
    && (forall a :: a in af.counts <==> a in acts)
    && (forall a :: a in af.counts ==> af.counts[a] == Count(acts, a))
    && af.ratios.Keys == af.counts.Keys
    && (forall a :: a in af.ratios ==> af.ratios[a] == af.counts[a] as real / |acts| as real)
  }

  /** A share of a non-empty whole lies in (0, 1]. */
  lemma ShareInUnitInterval(k: nat, n: nat)
    requires 0 < k <= n
    ensures 0.0 < k as real / n as real <= 1.0
  {
    assert k as real / n as real * n as real == k as real;
  }

  /** Action features of the actions of a wallet's rows. */
  function ActionFeaturesOf(acts: seq<string>): (r: ActionFeatures)
    ensures Tallies(r, acts)
    ensures forall a :: a in r.counts <==> a in acts
    ensures forall a :: a in r.counts ==> r.counts[a] == Count(acts, a) && r.counts[a] >= 1
    ensures r.ratios.Keys == r.counts.Keys
    ensures forall a :: a in r.ratios ==> r.ratios[a] == r.counts[a] as real / |acts| as real
    ensures |acts| > 0 ==> r.diversity == |r.counts| as real / |acts| as real
    ensures |acts| > 0 ==> 0.0 < r.diversity <= 1.0
    ensures |acts| == 0 ==> r.diversity == 0.0
  {
    var kinds := Distinct(acts);
    var counts := map a | a in kinds :: Count(acts, a);
    var ratios := map a | a in kinds :: Count(acts, a) as real / |acts| as real;
    assert counts.Keys == set a | a in kinds;
    NoDupsCardinality(kinds);
    if |acts| > 0 then
      DistinctNonEmpty(acts);
      ShareInUnitInterval(|kinds|, |acts|);
      ActionFeatures(counts, ratios, |kinds| as real / |acts| as real)
    else
      ActionFeatures(counts, ratios, 0.0)
  }

  /**
   * Amount features: absent when there is no amount column or no amount is
   * present; `stdDev` is the sample standard deviation, used only for two
   * or more amounts.
   */
  function AmountFeaturesOf(rows: seq<Tx>, hasAmounts: bool, stdDev: seq<real> -> real): (r: Option<AmountFeatures>)
    ensures r.None? <==> !hasAmounts || forall i :: 0 <= i < |rows| ==> rows[i].amount.None?
    ensures r.Some? ==> r.value.totalAmount == SumReals(PresentAmounts(rows))
    ensures r.Some? ==> r.value.avgAmount == r.value.totalAmount / |PresentAmounts(rows)| as real
    ensures r.Some? ==> r.value.maxAmount in PresentAmounts(rows)
    ensures r.Some? ==> forall x :: x in PresentAmounts(rows) ==> x <= r.value.maxAmount
    ensures r.Some? ==> r.value.avgAmount <= r.value.maxAmount
    ensures r.Some? && |PresentAmounts(rows)| == 1 ==> r.value.amountStd == 0.0
  {
    var v := PresentAmounts(rows);
    if !hasAmounts || |v| == 0 then None
    else
      var total := SumReals(v);
      var max := MaxReal(v);
      SumAtMostCountTimesMax(v, max);
      MeanBounds(total, |v|, max);
      Some(AmountFeatures(total, total / |v| as real, max, if |v| > 1 then stdDev(v) else 0.0))
  }

  /** With two or more amounts, `amount_std` is the sample standard deviation of the present amounts. */
  lemma AmountStdOfSeveral(rows: seq<Tx>, stdDev: seq<real> -> real)
    requires |PresentAmounts(rows)| >= 2
    ensures AmountFeaturesOf(rows, true, stdDev).Some?
    ensures AmountFeaturesOf(rows, true, stdDev).value.amountStd == stdDev(PresentAmounts(rows))
  {
  }

  /** The mean of `n` values summing to `total`, each at most `max`. */
  lemma MeanBounds(total: real, n: nat, max: real)
    requires n >= 1 && total <= n as real * max
    ensures total / n as real <= max
  {
    var mean := total / n as real;
    assert mean * n as real == total;
    if mean > max {
      assert mean * n as real > max * n as real;
    }
  }

  /**
   * The features of wallet `w`, or `None` (the empty record) when the
   * table has no row for it.
   */
  function WalletFeatures(t: Table, w: string, stdDev: seq<real> -> real): Option<Features> {
    var txs := WalletRows(t.rows, w);
    if |txs| == 0 then None
    else
      var acts := Actions(txs);
      Some(Features(
        |txs|,
        |Distinct(PresentAssets(txs))|,
        |Distinct(acts)|,
        if t.hasTimestamps then Some(TimeFeaturesOf(Timestamps(txs))) else None,
        ActionFeaturesOf(acts),
        AmountFeaturesOf(txs, t.hasAmounts, stdDev)))
  }

  /** The distinct symbols that occur in an asset column. */
  function Symbols(c: seq<Option<string>>): set<string> {
    set i | 0 <= i < |c| && c[i].Some? :: c[i].value
  }

  /**
   * A wallet has a record exactly when it has a row; the record counts its
   * rows and the distinct asset symbols among them, tallies its actions,
   * has one action count per distinct action, and carries the time family
   * exactly when the table has timestamps.
   */
  lemma WalletFeaturesFacts(t: Table, w: string, stdDev: seq<real> -> real)
    ensures WalletFeatures(t, w, stdDev).None? <==> w !in Wallets(t.rows)
    ensures WalletFeatures(t, w, stdDev).Some? ==>
              var f := WalletFeatures(t, w, stdDev).value;
              && Populated(f)
              && f.totalTransactions == Count(Wallets(t.rows), w)
              && f.uniqueAssets == |Symbols(AssetColumn(WalletRows(t.rows, w)))|
              && f.uniqueActions == |f.actions.counts|
              && (f.time.Some? <==> t.hasTimestamps)
              && Tallies(f.actions, Actions(WalletRows(t.rows, w)))
              && f.actions.diversity == f.uniqueActions as real / f.totalTransactions as real
              && 0.0 < f.actions.diversity <= 1.0
  {
    var txs := WalletRows(t.rows, w);
    if |txs| > 0 {
      var acts := Actions(txs);
      var af := ActionFeaturesOf(acts);
      NoDupsCardinality(Distinct(acts));
      assert af.counts.Keys == set a | a in Distinct(acts);
      DistinctSymbols(txs);
    }
  }

  /** The distinct present symbols are as many as the symbols of the asset column. */
  lemma DistinctSymbols(rows: seq<Tx>)
    ensures |Distinct(PresentAssets(rows))| == |Symbols(AssetColumn(rows))|
  {
    var d := Distinct(PresentAssets(rows));
    var c := AssetColumn(rows);
    NoDupsCardinality(d);
    forall a
      ensures a in d <==> a in Symbols(c)
    {
      if a in Symbols(c) {
        var i :| 0 <= i < |c| && c[i].Some? && c[i].value == a;
        assert c[i] == Some(a);
      }
    }
    assert (set a | a in d) == Symbols(c);
  }

  /**
   * What every non-empty record built by `WalletFeatures` satisfies: at least
   * one transaction, and every action count at least one.
   */
  ghost predicate Populated(f: Features) {
    && f.totalTransactions >= 1
    && forall a :: a in f.actions.counts ==> f.actions.counts[a] >= 1
  }

  // The source keeps every feature in one flat dictionary, filled in this
  // order: the structural counts, the time family, the action counts, the
  // `<action>_ratio` keys, `action_diversity`, the amount family. A later
  // entry overwrites an earlier one with the same key, so `Get` tries the
  // families in the reverse order.

  const AmountKeys: set<string> := {"total_amount", "avg_amount", "max_amount", "amount_std"}
  const TimeKeys: set<string> := {"tx_frequency_hrs", "active_days", "tx_per_day"}

  /** The action whose `<action>_ratio` key `key` is, if it has that shape. */
  function RatioAction(key: string): (a: Option<string>)
    ensures a.Some? ==> a.value + "_ratio" == key
  {
    if |key| >= 6 && key[|key| - 6..] == "_ratio" then
      assert key == key[..|key| - 6] + key[|key| - 6..];
      Some(key[..|key| - 6])
    else None
  }

  /** Every `<action>_ratio` key names its action. */
  lemma RatioKeyRoundTrip(a: string)
    ensures RatioAction(a + "_ratio") == Some(a)
  {
    var key := a + "_ratio";
    assert key[|key| - 6..] == "_ratio";
    assert key[..|key| - 6] == a;
  }

  /** Looks a key up in the record's flat-dictionary view. */
  function Get(f: Features, key: string): Option<real> {
    if f.amounts.Some? && key in AmountKeys then
      var am := f.amounts.value;
      Some(if key == "total_amount" then am.totalAmount
           else if key == "avg_amount" then am.avgAmount
           else if key == "max_amount" then am.maxAmount
           else am.amountStd)
    else if key == "action_diversity" then Some(f.actions.diversity)
    else if RatioAction(key).Some? && RatioAction(key).value in f.actions.ratios then
      Some(f.actions.ratios[RatioAction(key).value])
    else if key in f.actions.counts then Some(f.actions.counts[key] as real)
    else if f.time.Some? && key in TimeKeys then
      var tf := f.time.value;
      Some(if key == "tx_frequency_hrs" then tf.txFrequencyHrs
           else if key == "active_days" then tf.activeDays as real
           else tf.txPerDay)
    else if key == "total_transactions" then Some(f.totalTransactions as real)
    else if key == "unique_assets" then Some(f.uniqueAssets as real)
    else if key == "unique_actions" then Some(f.uniqueActions as real)
    else None
  }

  /** `features.get(key, 0)`. */
  function GetOrZero(f: Features, key: string): real {
    match Get(f, key)
    case Some(v) => v
    case None => 0.0
  }

  /** Sum of `m[k]` over the keys `ks` (absent keys add nothing). */
  function SumNatValues(ks: seq<string>, m: map<string, nat>): nat {
    if |ks| == 0 then 0
    else SumNatValues(ks[..|ks| - 1], m) + (if ks[|ks| - 1] in m then m[ks[|ks| - 1]] else 0)
  }

  function SumRealValues(ks: seq<string>, m: map<string, real>): real {
    if |ks| == 0 then 0.0
    else SumRealValues(ks[..|ks| - 1], m) + (if ks[|ks| - 1] in m then m[ks[|ks| - 1]] else 0.0)
  }

  lemma {:induction false} SumOfCounts(ks: seq<string>, acts: seq<string>, m: map<string, nat>)
    requires forall i :: 0 <= i < |ks| ==> ks[i] in m
    requires forall a :: a in m ==> m[a] == Count(acts, a)
    ensures SumNatValues(ks, m) == SumCounts(ks, acts)
  {
    if |ks| > 0 {
      SumOfCounts(ks[..|ks| - 1], acts, m);
    }
  }

  lemma {:induction false} SumOfRatios(ks: seq<string>, acts: seq<string>, m: map<string, real>)
    requires |acts| > 0
    requires forall i :: 0 <= i < |ks| ==> ks[i] in m
    requires forall a :: a in m ==> m[a] == Count(acts, a) as real / |acts| as real
    ensures SumRealValues(ks, m) == SumCounts(ks, acts) as real / |acts| as real
  {
    if |ks| > 0 {
      var init := ks[..|ks| - 1];
      var k := ks[|ks| - 1];
      SumOfRatios(init, acts, m);
      SumOfShares(SumCounts(init, acts) as real, Count(acts, k) as real, |acts| as real);
    }
  }

  lemma WholeShare(n: real)
    requires n > 0.0
    ensures n / n == 1.0
  {
  }

  lemma SumOfShares(a: real, b: real, n: real)
    requires n > 0.0
    ensures a / n + b / n == (a + b) / n
  {
  }

  /** The per-action counts add up to the number of transactions. */
  lemma ActionCountsSumToTotal(acts: seq<string>)
    ensures SumNatValues(Distinct(acts), ActionFeaturesOf(acts).counts) == |acts|
  {
    var af := ActionFeaturesOf(acts);
    SumOfCounts(Distinct(acts), acts, af.counts);
    SumCountsDistinct(acts);
  }

  /** The `<action>_ratio` values over the distinct actions add up to one. */
  lemma ActionRatiosSumToOne(acts: seq<string>)
    requires |acts| > 0
    ensures SumRealValues(Distinct(acts), ActionFeaturesOf(acts).ratios) == 1.0
  {
    var af := ActionFeaturesOf(acts);
    var kinds := Distinct(acts);
    assert forall a :: a in af.ratios ==> af.ratios[a] == Count(acts, a) as real / |acts| as real;
    forall i | 0 <= i < |kinds|
      ensures kinds[i] in af.ratios
    {
      assert kinds[i] in acts;
      assert kinds[i] in af.counts;
    }
    SumOfRatios(kinds, acts, af.ratios);
    SumCountsDistinct(acts);
    var n := |acts| as real;
    assert SumCounts(kinds, acts) as real == n;
    WholeShare(n);
  }
}
