/**
 * The scoring formula: a base score plus three capped components and a
 * behaviour adjustment, clamped to [MinScore, MaxScore].
 */
module Scoring {
  import opened Wrappers
  import opened Seqs
  import opened Transactions
  import opened Features

  const BaseScore := 500
  const MaxScore := 1000
  const MinScore := 0
  const ActivityMaxPoints := 200
  const LongevityMaxPoints := 100
  const DiversityMaxPoints := 100
  const LiquidationPenalty := 100
  const DepositBonus := 50

  function Min(a: real, b: real): real {
    if b < a then b else a
  }

  function Max(a: real, b: real): real {
    if a < b then b else a
  }

  /** Half a point per transaction, at most `ActivityMaxPoints`. */
  function ActivityScore(f: Features): (r: real)
    ensures r <= ActivityMaxPoints as real
    ensures GetOrZero(f, "total_transactions") <= 400.0 ==> r == GetOrZero(f, "total_transactions") * 0.5
    ensures GetOrZero(f, "total_transactions") >= 400.0 ==> r == ActivityMaxPoints as real
  {
    Min(ActivityMaxPoints as real, GetOrZero(f, "total_transactions") * 0.5)
  }

  /** Two points per active day, at most `LongevityMaxPoints`; no `active_days` key counts as 0. */
  function LongevityScore(f: Features): (r: real)
    ensures r <= LongevityMaxPoints as real
    ensures GetOrZero(f, "active_days") <= 50.0 ==> r == GetOrZero(f, "active_days") * 2.0
    ensures GetOrZero(f, "active_days") >= 50.0 ==> r == LongevityMaxPoints as real
    ensures Get(f, "active_days").None? ==> r == 0.0
  {
    Min(LongevityMaxPoints as real, GetOrZero(f, "active_days") * 2.0)
  }

  /** Twenty points per distinct asset, at most `DiversityMaxPoints`. */
  function DiversityScore(f: Features): (r: real)
    ensures r <= DiversityMaxPoints as real
    ensures GetOrZero(f, "unique_assets") <= 5.0 ==> r == GetOrZero(f, "unique_assets") * 20.0
    ensures GetOrZero(f, "unique_assets") >= 5.0 ==> r == DiversityMaxPoints as real
  {
    Min(DiversityMaxPoints as real, GetOrZero(f, "unique_assets") * 20.0)
  }

  function DepositRatio(f: Features): real {
    GetOrZero(f, "deposit_ratio")
  }

  function LiquidationCount(f: Features): real {
    GetOrZero(f, "liquidationcall")
  }

  /**
   * `DepositBonus` when the deposit ratio is strictly above one half, minus
   * `LiquidationPenalty` when there was any liquidation.
   */
  function BehaviorAdjustment(f: Features): (r: real)
    ensures r == -100.0 || r == -50.0 || r == 0.0 || r == 50.0
    ensures r == 50.0 || r == -50.0 <==> DepositRatio(f) > 0.5
    ensures r < 0.0 <==> LiquidationCount(f) > 0.0
  {
    (if DepositRatio(f) > 0.5 then DepositBonus as real else 0.0)
    - (if LiquidationCount(f) > 0.0 then LiquidationPenalty as real else 0.0)
  }

  /** The adjustment accumulated step by step, as the source computes it. */
  method CalculateBehaviorAdjustment(f: Features) returns (adjustment: real)
    ensures adjustment == BehaviorAdjustment(f)
  {
    adjustment := 0.0;
    if GetOrZero(f, "deposit_ratio") > 0.5 {
      adjustment := adjustment + DepositBonus as real;
    }
    if GetOrZero(f, "liquidationcall") > 0.0 {
      adjustment := adjustment - LiquidationPenalty as real;
    }
  }

  /** The score before clamping. */
  function RawScore(f: Features): real {
    BaseScore as real + ActivityScore(f) + LongevityScore(f) + DiversityScore(f) + BehaviorAdjustment(f)
  }

  /** `max(MIN_SCORE, min(MAX_SCORE, x))`. */
  function Clamp(x: real): (r: real)
    ensures MinScore as real <= r <= MaxScore as real
    ensures MinScore as real <= x <= MaxScore as real ==> r == x
    ensures x < MinScore as real ==> r == MinScore as real
    ensures x > MaxScore as real ==> r == MaxScore as real
  {
    Max(MinScore as real, Min(MaxScore as real, x))
  }

  /** The score of a non-empty feature record. */
  function CreditScore(f: Features): (r: real)
    ensures MinScore as real <= r <= MaxScore as real
  {
    Clamp(RawScore(f))
  }

  /** For a record built from at least one transaction the clamp changes nothing. */
  lemma CreditScoreUnclamped(f: Features)
    requires Populated(f)
    ensures CreditScore(f) == RawScore(f)
  {
    RawScoreRange(f);
  }

  /** `total_transactions` is never negative, and at least one for a populated record. */
  lemma TotalTransactionsKey(f: Features)
    ensures GetOrZero(f, "total_transactions") >= 0.0
    ensures Populated(f) ==> GetOrZero(f, "total_transactions") >= 1.0
  {
    assert RatioAction("total_transactions").None? by {
      assert "total_transactions"[12..] != "_ratio";
    }
  }

  /** `active_days` is never negative. */
  lemma ActiveDaysKey(f: Features)
    ensures GetOrZero(f, "active_days") >= 0.0
  {
    assert RatioAction("active_days").None? by {
      assert "active_days"[5..] != "_ratio";
    }
  }

  /** `unique_assets` is never negative. */
  lemma UniqueAssetsKey(f: Features)
    ensures GetOrZero(f, "unique_assets") >= 0.0
  {
    assert RatioAction("unique_assets").None? by {
      assert "unique_assets"[7..] != "_ratio";
    }
  }

  /**
   * The unclamped score of any record lies in [400, 950] (every component
   * is at least 0 and the adjustment at least -100); for a record built
   * from at least one transaction it is at least 400.5.
   */
  lemma RawScoreRange(f: Features)
    ensures 400.0 <= RawScore(f) <= 950.0
    ensures Populated(f) ==> 400.5 <= RawScore(f)
  {
    TotalTransactionsKey(f);
    ActiveDaysKey(f);
    UniqueAssetsKey(f);
  }

  /** The score of wallet `w`: `MinScore` when the table has no row for it, otherwise the formula. */
  function WalletScore(t: Table, w: string, stdDev: seq<real> -> real): real {
    match WalletFeatures(t, w, stdDev)
    case None => MinScore as real
    case Some(f) => CreditScore(f)
  }

  /**
   * Every wallet score lies in [MinScore, MaxScore]; a wallet without rows
   * scores `MinScore`, and one with rows lies in [400.5, 950], unclamped.
   */
  lemma WalletScoreRange(t: Table, w: string, stdDev: seq<real> -> real)
    ensures MinScore as real <= WalletScore(t, w, stdDev) <= MaxScore as real
    ensures w !in Wallets(t.rows) ==> WalletScore(t, w, stdDev) == MinScore as real
    ensures w in Wallets(t.rows) ==>
              WalletScore(t, w, stdDev) == RawScore(WalletFeatures(t, w, stdDev).value)
              && 400.5 <= WalletScore(t, w, stdDev) <= 950.0
  {
    WalletFeaturesFacts(t, w, stdDev);
    if w in Wallets(t.rows) {
      RawScoreRange(WalletFeatures(t, w, stdDev).value);
    }
  }

  /** The `liquidationcall` key holds the number of liquidation rows. */
  lemma LiquidationLookup(f: Features, acts: seq<string>)
    requires Tallies(f.actions, acts)
    ensures LiquidationCount(f) == Count(acts, "liquidationcall") as real
  {
    LiquidationKey();
  }

  lemma LiquidationKey()
    ensures "liquidationcall" !in AmountKeys && "liquidationcall" !in TimeKeys
    ensures "liquidationcall" != "action_diversity"
    ensures RatioAction("liquidationcall").None?
  {
    assert "liquidationcall"[9..] != "_ratio";
  }

  lemma DepositRatioKey()
    ensures "deposit_ratio" !in AmountKeys && "deposit_ratio" !in TimeKeys
    ensures "deposit_ratio" != "action_diversity"
    ensures "deposit_ratio" !in {"total_transactions", "unique_assets", "unique_actions"}
    ensures RatioAction("deposit_ratio") == Some("deposit")
  {
    assert "deposit_ratio"[7..] == "_ratio" && "deposit_ratio"[..7] == "deposit";
  }

  /**
   * The `deposit_ratio` key holds the share of deposit rows when there are
   * any, and is absent when there is neither a `deposit` nor a
   * `deposit_ratio` action.
   */
  lemma DepositRatioLookup(f: Features, acts: seq<string>)
    requires Tallies(f.actions, acts)
    ensures "deposit" in acts ==> DepositRatio(f) == Count(acts, "deposit") as real / |acts| as real
    ensures "deposit" !in acts && "deposit_ratio" !in acts ==> DepositRatio(f) == 0.0
  {
    DepositRatioKey();
    if "deposit" in acts {
      assert "deposit" in f.actions.ratios;
    }
  }

  /** A wallet is penalised exactly when it has a `liquidationcall` row. */
  lemma PenaltyIffLiquidated(t: Table, w: string, stdDev: seq<real> -> real)
    requires w in Wallets(t.rows)
    ensures BehaviorAdjustment(WalletFeatures(t, w, stdDev).value) < 0.0
            <==> "liquidationcall" in Actions(WalletRows(t.rows, w))
  {
    WalletFeaturesFacts(t, w, stdDev);
    LiquidationLookup(WalletFeatures(t, w, stdDev).value, Actions(WalletRows(t.rows, w)));
  }

  /**
   * A wallet with at least one deposit row gets the bonus exactly when
   * more than half of its rows are deposits.
   */
  lemma BonusIffDepositMajority(t: Table, w: string, stdDev: seq<real> -> real)
    requires w in Wallets(t.rows)
    requires "deposit" in Actions(WalletRows(t.rows, w))
    ensures var acts := Actions(WalletRows(t.rows, w));
            var adj := BehaviorAdjustment(WalletFeatures(t, w, stdDev).value);
            (adj == 50.0 || adj == -50.0) <==> Count(acts, "deposit") as real / |acts| as real > 0.5
  {
    WalletFeaturesFacts(t, w, stdDev);
    DepositRatioLookup(WalletFeatures(t, w, stdDev).value, Actions(WalletRows(t.rows, w)));
  }
}
