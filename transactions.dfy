/**
 * The loaded transaction table: one row per ledger entry, as the loader
 * (JSON flattening plus `to_datetime` / `to_numeric` coercion) leaves it.
 */
module Transactions {
  import opened Wrappers
  import Seqs

  /**
   * One transaction row. `asset` is `actionData.assetSymbol`; `amount` is
   * the coerced `actionData.amount`, `None` where coercion produced NaN;
   * `timestamp` is in epoch seconds.
   */
  datatype Tx = Tx(
    wallet: string,
    action: string,
    asset: Option<string>,
    amount: Option<real>,
    timestamp: int)

  /**
   * The whole table. `hasTimestamps` and `hasAmounts` say whether the
   * `timestamp` and `amount` columns exist at all; when a flag is false the
   * corresponding field of every row is ignored.
   */
  datatype Table = Table(rows: seq<Tx>, hasTimestamps: bool, hasAmounts: bool)

  /** The `userWallet` column. */
  function Wallets(rows: seq<Tx>): (ws: seq<string>)
    ensures |ws| == |rows|
  {
    seq(|rows|, i requires 0 <= i < |rows| => rows[i].wallet)
  }

  /** The `action` column. */
  function Actions(rows: seq<Tx>): (acts: seq<string>)
    ensures |acts| == |rows|
  {
    seq(|rows|, i requires 0 <= i < |rows| => rows[i].action)
  }

  /** The `timestamp` column. */
  function Timestamps(rows: seq<Tx>): (ts: seq<int>)
    ensures |ts| == |rows|
  {
    seq(|rows|, i requires 0 <= i < |rows| => rows[i].timestamp)
  }

  /** The `actionData.assetSymbol` column; `None` where a row has no symbol. */
  function AssetColumn(rows: seq<Tx>): (c: seq<Option<string>>)
    ensures |c| == |rows|
  {
    seq(|rows|, i requires 0 <= i < |rows| => rows[i].asset)
  }

  /** The coerced amount column; `None` where coercion produced NaN. */
  function AmountColumn(rows: seq<Tx>): (c: seq<Option<real>>)
    ensures |c| == |rows|
  {
    seq(|rows|, i requires 0 <= i < |rows| => rows[i].amount)
  }

  /**
   * The asset symbols that are present, in row order: each symbol as many
   * times as the asset column holds it.
   */
  function PresentAssets(rows: seq<Tx>): (v: seq<string>)
    ensures forall a :: multiset(v)[a] == multiset(AssetColumn(rows))[Some(a)]
    ensures forall a :: a in v <==> Some(a) in AssetColumn(rows)
  {
    if |rows| == 0 then []
    else
      var init := PresentAssets(rows[..|rows| - 1]);
      assert AssetColumn(rows) == AssetColumn(rows[..|rows| - 1]) + [rows[|rows| - 1].asset];
      match rows[|rows| - 1].asset
      case Some(a) => init + [a]
      case None => init
  }

  /** The amounts that are present (the `dropna()` of the amount column), in row order. */
  function PresentAmounts(rows: seq<Tx>): (v: seq<real>)
    ensures |v| <= |rows|
    ensures v == [] <==> forall i :: 0 <= i < |rows| ==> rows[i].amount.None?
  {
    if |rows| == 0 then []
    else
      var init := PresentAmounts(rows[..|rows| - 1]);
      assert forall i :: 0 <= i < |rows| - 1 ==> rows[..|rows| - 1][i] == rows[i];
      match rows[|rows| - 1].amount
      case Some(x) => init + [x]
      case None => init
  }

  /** The present amounts hold each value as many times as the amount column does. */
  lemma {:induction false} PresentAmountsContents(rows: seq<Tx>)
    ensures forall x :: multiset(PresentAmounts(rows))[x] == multiset(AmountColumn(rows))[Some(x)]
  {
    if |rows| > 0 {
      var init := rows[..|rows| - 1];
      var last := rows[|rows| - 1].amount;
      PresentAmountsContents(init);
      assert AmountColumn(rows) == AmountColumn(init) + [last];
      match last
      case Some(y) =>
        assert PresentAmounts(rows) == PresentAmounts(init) + [y];
      case None =>
        assert PresentAmounts(rows) == PresentAmounts(init);
    }
  }

  /** The rows of wallet `w` (exact, case-sensitive match), in table order. */
  function WalletRows(rows: seq<Tx>, w: string): (r: seq<Tx>)
    ensures |r| == Seqs.Count(Wallets(rows), w)
    ensures forall i :: 0 <= i < |r| ==> r[i].wallet == w && r[i] in rows
  {
    if |rows| == 0 then []
    else
      var init := rows[..|rows| - 1];
      var last := rows[|rows| - 1];
      assert Wallets(rows) == Wallets(init) + [last.wallet];
      Seqs.CountAppend(Wallets(init), last.wallet, w);
      if last.wallet == w then WalletRows(init, w) + [last] else WalletRows(init, w)
  }

  /** The rows of `w` are every row of `w`, as many times as the table holds it, and no other row. */
  lemma {:induction false} WalletRowsContents(rows: seq<Tx>, w: string)
    ensures forall x :: multiset(WalletRows(rows, w))[x] == if x.wallet == w then multiset(rows)[x] else 0
  {
    if |rows| > 0 {
      var init := rows[..|rows| - 1];
      WalletRowsContents(init, w);
      assert rows == init + [rows[|rows| - 1]];
    }
  }
}
