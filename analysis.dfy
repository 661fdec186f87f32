/**
 * The score-range report: every score is put into one of five half-open
 * ranges (`pd.cut` with `right=False`), the ranges are counted in label
 * order, each count is also given as a percentage of all scores, and the
 * result is laid out as a markdown table.
 */
module Analysis {
  import opened Wrappers
  import opened Seqs
  import opened Transactions
  import opened Scoring

  /** The range edges; range `i` is [Bins[i], Bins[i + 1]). */
  const Bins: seq<real> := [0.0, 300.0, 500.0, 700.0, 850.0, 1000.0]

  const Labels: seq<string> := [
    "Very Poor (0-300)", "Fair (301-500)", "Good (501-700)",
    "Very Good (701-850)", "Excellent (851-1000)"]

  const RangeCount := 5

  /**
   * The range that holds `score`, or `None` (NaN in the source) when the
   * score lies below the first edge or at or above the last one.
   */
  function BucketOf(score: real): (r: Option<nat>)
    ensures r.Some? ==> r.value < RangeCount
    ensures r.None? <==> score < 0.0 || score >= 1000.0
  {
    if score < 0.0 || score >= 1000.0 then None
    else if score < 300.0 then Some(0)
    else if score < 500.0 then Some(1)
    else if score < 700.0 then Some(2)
    else if score < 850.0 then Some(3)
    else Some(4)
  }

  /** Range `i` holds exactly the scores in [Bins[i], Bins[i + 1]). */
  lemma BucketBounds(score: real, i: nat)
    requires i < RangeCount
    ensures BucketOf(score) == Some(i) <==> Bins[i] <= score < Bins[i + 1]
  {
    assert Bins[0] == 0.0 && Bins[1] == 300.0 && Bins[2] == 500.0;
    assert Bins[3] == 700.0 && Bins[4] == 850.0 && Bins[5] == 1000.0;
  }

  /** The range of every score, in order. */
  function Buckets(scores: seq<real>): (b: seq<Option<nat>>)
    ensures |b| == |scores|
  {
    seq(|scores|, j requires 0 <= j < |scores| => BucketOf(scores[j]))
  }

  /**
   * The per-range tally (`value_counts().sort_index()` over the five
   * categories): entry `i` counts the scores that fall in range `i`.
   */
  function RangeCounts(scores: seq<real>): (c: seq<nat>)
    ensures |c| == RangeCount
  {
    if |scores| == 0 then [0, 0, 0, 0, 0]
    else
      var c := RangeCounts(scores[..|scores| - 1]);
      var b := BucketOf(scores[|scores| - 1]);
      if b.Some? then c[b.value := c[b.value] + 1] else c
  }

  /** The buckets of a longer list are those of its prefix and then one more. */
  lemma BucketsAppend(scores: seq<real>)
    requires |scores| > 0
    ensures Buckets(scores) == Buckets(scores[..|scores| - 1]) + [BucketOf(scores[|scores| - 1])]
  {
  }

  /** Entry `i` of the tally is the number of scores whose range is `i`. */
  lemma {:induction false} RangeCountsCount(scores: seq<real>)
    ensures forall i :: 0 <= i < RangeCount ==> RangeCounts(scores)[i] == Count(Buckets(scores), Some(i))
  {
    if |scores| > 0 {
      var init := scores[..|scores| - 1];
      var b := BucketOf(scores[|scores| - 1]);
      RangeCountsCount(init);
      BucketsAppend(scores);
      forall i | 0 <= i < RangeCount
        ensures RangeCounts(scores)[i] == Count(Buckets(scores), Some(i))
      {
        CountAppend(Buckets(init), b, Some(i));
      }
    }
  }

  function Total(c: seq<nat>): nat
    requires |c| == RangeCount
  {
    c[0] + c[1] + c[2] + c[3] + c[4]
  }

  /**
   * Every score is counted in exactly one range unless it lies outside all
   * of them: the five counts and the out-of-range scores add up to the
   * number of scores.
   */
  lemma {:induction false} RangeCountsTotal(scores: seq<real>)
    ensures Total(RangeCounts(scores)) + Count(Buckets(scores), None) == |scores|
  {
    if |scores| > 0 {
      var init := scores[..|scores| - 1];
      var b := BucketOf(scores[|scores| - 1]);
      RangeCountsTotal(init);
      BucketsAppend(scores);
      CountAppend(Buckets(init), b, None);
    }
  }

  /** Scores within [0, 1000) are all counted: the counts add up to the number of scores. */
  lemma RangeCountsCoverAll(scores: seq<real>)
    requires forall j :: 0 <= j < |scores| ==> 0.0 <= scores[j] < 1000.0
    ensures Total(RangeCounts(scores)) == |scores|
  {
    RangeCountsTotal(scores);
    assert None !in Buckets(scores);
  }

  /** `k` out of `n`, in percent. */
  function Share(k: nat, n: nat): real
    requires n > 0
  {
    k as real / n as real * 100.0
  }

  /**
   * Each range's share of ALL scores, in percent (out-of-range scores are
   * in the denominator); `None` for every range when there are no scores,
   * where the source divides zero by zero.
   */
  function Percentages(scores: seq<real>): (p: seq<Option<real>>)
    ensures |p| == RangeCount
    ensures forall i :: 0 <= i < RangeCount ==> (p[i].None? <==> |scores| == 0)
    ensures |scores| > 0 ==> forall i :: 0 <= i < RangeCount ==>
              p[i] == Some(Share(Count(Buckets(scores), Some(i)), |scores|))
  {
    var c := RangeCounts(scores);
    RangeCountsCount(scores);
    seq(RangeCount, i requires 0 <= i < RangeCount =>
      if |scores| == 0 then None else Some(Share(c[i], |scores|)))
  }

  /** `k` out of `n` is between 0 and 100 percent. */
  lemma ShareBounds(k: nat, n: nat)
    requires 0 < n && k <= n
    ensures 0.0 <= Share(k, n) <= 100.0
  {
    var q := k as real / n as real;
    assert q * n as real == k as real;
  }

  /** Every percentage lies between 0 and 100. */
  lemma PercentagesBounds(scores: seq<real>)
    ensures forall i :: 0 <= i < RangeCount && Percentages(scores)[i].Some? ==>
              0.0 <= Percentages(scores)[i].value <= 100.0
  {
    if |scores| > 0 {
      var c := RangeCounts(scores);
      RangeCountsCount(scores);
      forall i | 0 <= i < RangeCount
        ensures 0.0 <= Percentages(scores)[i].value <= 100.0
      {
        ShareBounds(c[i], |scores|);
      }
    }
  }

  lemma SharesAdd(a: nat, b: nat, n: nat)
    requires n > 0
    ensures Share(a, n) + Share(b, n) == Share(a + b, n)
  {
  }

  /**
   * The five percentages add up to the share of in-range scores, which is
   * at most one hundred, and exactly one hundred when every score lies
   * within [0, 1000).
   */
  lemma PercentagesTotal(scores: seq<real>)
    requires |scores| > 0
    ensures var p := Percentages(scores);
            p[0].value + p[1].value + p[2].value + p[3].value + p[4].value
              == Share(Total(RangeCounts(scores)), |scores|)
    ensures var p := Percentages(scores);
            p[0].value + p[1].value + p[2].value + p[3].value + p[4].value <= 100.0
    ensures (forall j :: 0 <= j < |scores| ==> 0.0 <= scores[j] < 1000.0) ==>
              var p := Percentages(scores);
              p[0].value + p[1].value + p[2].value + p[3].value + p[4].value == 100.0
  {
    var c := RangeCounts(scores);
    var n := |scores|;
    var p := Percentages(scores);
    RangeCountsCount(scores);
    assert p[0].value == Share(c[0], n) && p[1].value == Share(c[1], n) && p[2].value == Share(c[2], n);
    assert p[3].value == Share(c[3], n) && p[4].value == Share(c[4], n);
    FiveShares(c, n);
    RangeCountsTotal(scores);
    ShareBounds(Total(c), n);
    if forall j :: 0 <= j < |scores| ==> 0.0 <= scores[j] < 1000.0 {
      RangeCountsCoverAll(scores);
      ShareOfAll(n);
    }
  }

  lemma FiveShares(c: seq<nat>, n: nat)
    requires |c| == RangeCount && n > 0
    ensures Share(c[0], n) + Share(c[1], n) + Share(c[2], n) + Share(c[3], n) + Share(c[4], n)
            == Share(Total(c), n)
  {
    SharesAdd(c[0], c[1], n);
    SharesAdd(c[0] + c[1], c[2], n);
    SharesAdd(c[0] + c[1] + c[2], c[3], n);
    SharesAdd(c[0] + c[1] + c[2] + c[3], c[4], n);
  }

  lemma ShareOfAll(n: nat)
    requires n > 0
    ensures Share(n, n) == 100.0
  {
    assert n as real / n as real == 1.0;
  }

  /** One line of the returned markdown text. */
  datatype ReportLine =
    | Text(text: string)
    | RangeRow(rangeLabel: string, wallets: nat, percentage: Option<real>)

  /** The heading, a blank line, and the table's two header lines. */
  const Header: seq<ReportLine> := [
    Text("## Score Distribution by Range"),
    Text(""),
    Text("| Score Range | Wallets | Percentage |"),
    Text("|-------------|---------|------------|")]

  /**
   * The report: the header, then one row per range in label order with
   * that range's count and percentage.
   */
  method ScoreRangeReport(scores: seq<real>) returns (report: seq<ReportLine>)
    ensures |report| == |Header| + RangeCount
    ensures report[..|Header|] == Header
    ensures forall i :: 0 <= i < RangeCount ==>
              report[|Header| + i] == RangeRow(Labels[i], Count(Buckets(scores), Some(i)), Percentages(scores)[i])
  {
    var counts := RangeCounts(scores);
    RangeCountsCount(scores);
    var pct := Percentages(scores);
    report := Header;
    for i := 0 to RangeCount
      invariant |report| == |Header| + i
      invariant report[..|Header|] == Header
      invariant forall k :: 0 <= k < i ==>
                  report[|Header| + k] == RangeRow(Labels[k], Count(Buckets(scores), Some(k)), pct[k])
    {
      report := report + [RangeRow(Labels[i], counts[i], pct[i])];
    }
  }

  /** A score on an edge opens the upper range, so 300 is filed under "Fair (301-500)". */
  lemma EdgesOpenUpperRange()
    ensures BucketOf(300.0) == Some(1) && Labels[1] == "Fair (301-500)"
    ensures BucketOf(500.0) == Some(2) && Labels[2] == "Good (501-700)"
    ensures BucketOf(700.0) == Some(3) && Labels[3] == "Very Good (701-850)"
    ensures BucketOf(850.0) == Some(4) && Labels[4] == "Excellent (851-1000)"
    ensures BucketOf(0.0) == Some(0)
    ensures BucketOf(1000.0).None?
  {
  }

  /**
   * A wallet with rows never lands in "Very Poor (0-300)"; a wallet
   * without rows always does.
   */
  lemma WalletBucket(t: Table, w: string, stdDev: seq<real> -> real)
    ensures w in Wallets(t.rows) ==> BucketOf(WalletScore(t, w, stdDev)).Some? && BucketOf(WalletScore(t, w, stdDev)).value >= 1
    ensures w !in Wallets(t.rows) ==> BucketOf(WalletScore(t, w, stdDev)) == Some(0)
  {
    WalletScoreRange(t, w, stdDev);
  }
}
