/**
 * The scorer object: the loaded table, the per-wallet score cache
 * (lookup-or-compute), and the loop that scores every distinct wallet.
 */
module Scorer {
  import opened Wrappers
  import opened Seqs
  import opened Transactions
  import opened Features
  import opened Scoring

  /** The `ValueError` raised when no transaction data has been loaded. */
  datatype ScorerError = NoTransactionData

  /** One row of the output table: `wallet`, `credit_score`. */
  datatype ScoreRow = ScoreRow(wallet: string, creditScore: real)

  /** The score handed out by one lookup-or-compute, and the cache after it. */
  datatype Lookup = Lookup(score: real, cache: map<string, real>)

  /** The rows of a batch run, and the cache after it. */
  datatype Batch = Batch(rows: seq<ScoreRow>, cache: map<string, real>)

  /** Every cached score is the score the table `t` gives that wallet. */
  ghost predicate Agrees(cache: map<string, real>, t: Table, stdDev: seq<real> -> real) {
    forall w :: w in cache ==> cache[w] == WalletScore(t, w, stdDev)
  }

  /** What a lookup-or-compute hands out for `w`. */
  function CachedOrComputed(cache: map<string, real>, t: Table, w: string, stdDev: seq<real> -> real): real {
    if w in cache then cache[w] else WalletScore(t, w, stdDev)
  }

  /**
   * Lookup-or-compute on a value cache: a cached score is returned as it
   * is; otherwise the score is computed and stored only when the wallet
   * has rows (a wallet without rows returns `MinScore` before the store).
   */
  function CacheLookup(cache: map<string, real>, t: Table, w: string, stdDev: seq<real> -> real): Lookup {
    if w in cache then Lookup(cache[w], cache)
    else
      var s := WalletScore(t, w, stdDev);
      Lookup(s, if w in Wallets(t.rows) then cache[w := s] else cache)
  }

  /**
   * A lookup hands out the cached-or-computed score, never drops or
   * changes an entry, adds at most `w`, leaves `w` cached with the score
   * it handed out whenever `w` has rows, and keeps a cache that agrees
   * with the table agreeing.
   */
  lemma CacheLookupFacts(cache: map<string, real>, t: Table, w: string, stdDev: seq<real> -> real)
    ensures CacheLookup(cache, t, w, stdDev).score == CachedOrComputed(cache, t, w, stdDev)
    ensures forall k :: k in cache ==> k in CacheLookup(cache, t, w, stdDev).cache
                                       && CacheLookup(cache, t, w, stdDev).cache[k] == cache[k]
    ensures forall k :: k in CacheLookup(cache, t, w, stdDev).cache ==> k in cache || k == w
    ensures w in cache || w in Wallets(t.rows) ==>
              w in CacheLookup(cache, t, w, stdDev).cache
              && CacheLookup(cache, t, w, stdDev).cache[w] == CacheLookup(cache, t, w, stdDev).score
    ensures w !in cache && w !in Wallets(t.rows) ==> CacheLookup(cache, t, w, stdDev).score == MinScore as real
    ensures w !in cache && w !in Wallets(t.rows) ==> CacheLookup(cache, t, w, stdDev).cache == cache
    ensures Agrees(cache, t, stdDev) ==> Agrees(CacheLookup(cache, t, w, stdDev).cache, t, stdDev)
  {
    WalletScoreRange(t, w, stdDev);
  }

  /**
   * A second lookup of the same wallet hands out the same score and leaves
   * the cache as the first one left it.
   */
  lemma CacheLookupTwice(cache: map<string, real>, t: Table, w: string, stdDev: seq<real> -> real)
    ensures var first := CacheLookup(cache, t, w, stdDev);
            CacheLookup(first.cache, t, w, stdDev) == first
  {
    CacheLookupFacts(cache, t, w, stdDev);
  }

  /** Scoring the wallets `ws` one after the other, threading the cache. */
  function ScoreAll(cache: map<string, real>, t: Table, ws: seq<string>, stdDev: seq<real> -> real): (b: Batch)
    ensures |b.rows| == |ws|
    ensures forall i :: 0 <= i < |ws| ==> b.rows[i].wallet == ws[i]
  {
    if |ws| == 0 then Batch([], cache)
    else
      var before := ScoreAll(cache, t, ws[..|ws| - 1], stdDev);
      var w := ws[|ws| - 1];
      var l := CacheLookup(before.cache, t, w, stdDev);
      Batch(before.rows + [ScoreRow(w, l.score)], l.cache)
  }

  /** A batch run keeps every earlier entry and adds only wallets it scored. */
  lemma {:induction false} ScoreAllKeeps(cache: map<string, real>, t: Table, ws: seq<string>, stdDev: seq<real> -> real)
    ensures forall k :: k in cache ==> k in ScoreAll(cache, t, ws, stdDev).cache
                                       && ScoreAll(cache, t, ws, stdDev).cache[k] == cache[k]
    ensures forall k :: k in ScoreAll(cache, t, ws, stdDev).cache ==> k in cache || k in ws
  {
    if |ws| > 0 {
      var p := ws[..|ws| - 1];
      ScoreAllKeeps(cache, t, p, stdDev);
      CacheLookupFacts(ScoreAll(cache, t, p, stdDev).cache, t, ws[|ws| - 1], stdDev);
      assert forall k :: k in p ==> k in ws;
    }
  }

  /**
   * Over distinct wallets, each row holds that wallet's cached-or-computed
   * score with respect to the cache as it was before the run.
   */
  lemma {:induction false} ScoreAllScores(cache: map<string, real>, t: Table, ws: seq<string>, stdDev: seq<real> -> real)
    requires NoDups(ws)
    ensures forall i :: 0 <= i < |ws| ==>
              ScoreAll(cache, t, ws, stdDev).rows[i].creditScore == CachedOrComputed(cache, t, ws[i], stdDev)
  {
    if |ws| > 0 {
      var p := ws[..|ws| - 1];
      var w := ws[|ws| - 1];
      assert NoDups(p);
      ScoreAllScores(cache, t, p, stdDev);
      ScoreAllKeeps(cache, t, p, stdDev);
      var before := ScoreAll(cache, t, p, stdDev);
      CacheLookupFacts(before.cache, t, w, stdDev);
      assert w !in p;
      assert CachedOrComputed(before.cache, t, w, stdDev) == CachedOrComputed(cache, t, w, stdDev);
      forall i | 0 <= i < |ws|
        ensures ScoreAll(cache, t, ws, stdDev).rows[i].creditScore == CachedOrComputed(cache, t, ws[i], stdDev)
      {
        if i < |p| {
          assert ScoreAll(cache, t, ws, stdDev).rows[i] == before.rows[i];
        }
      }
    }
  }

  /**
   * After a batch run every scored wallet that was cached or has rows is
   * cached with the score of its row.
   */
  lemma {:induction false} ScoreAllStores(cache: map<string, real>, t: Table, ws: seq<string>, stdDev: seq<real> -> real)
    ensures forall i :: 0 <= i < |ws| && (ws[i] in cache || ws[i] in Wallets(t.rows)) ==>
              ws[i] in ScoreAll(cache, t, ws, stdDev).cache
              && ScoreAll(cache, t, ws, stdDev).cache[ws[i]] == ScoreAll(cache, t, ws, stdDev).rows[i].creditScore
  {
    if |ws| > 0 {
      var p := ws[..|ws| - 1];
      var w := ws[|ws| - 1];
      ScoreAllStores(cache, t, p, stdDev);
      ScoreAllKeeps(cache, t, p, stdDev);
      var before := ScoreAll(cache, t, p, stdDev);
      CacheLookupFacts(before.cache, t, w, stdDev);
      forall i | 0 <= i < |ws| && (ws[i] in cache || ws[i] in Wallets(t.rows))
        ensures ws[i] in ScoreAll(cache, t, ws, stdDev).cache
                && ScoreAll(cache, t, ws, stdDev).cache[ws[i]] == ScoreAll(cache, t, ws, stdDev).rows[i].creditScore
      {
        if i < |p| {
          assert ws[i] == p[i];
          assert ScoreAll(cache, t, ws, stdDev).rows[i] == before.rows[i];
        }
      }
    }
  }

  /** A batch run keeps a cache that agrees with the table agreeing. */
  lemma {:induction false} ScoreAllAgrees(cache: map<string, real>, t: Table, ws: seq<string>, stdDev: seq<real> -> real)
    requires Agrees(cache, t, stdDev)
    ensures Agrees(ScoreAll(cache, t, ws, stdDev).cache, t, stdDev)
  {
    if |ws| > 0 {
      var p := ws[..|ws| - 1];
      ScoreAllAgrees(cache, t, p, stdDev);
      CacheLookupFacts(ScoreAll(cache, t, p, stdDev).cache, t, ws[|ws| - 1], stdDev);
    }
  }

  /** When every wallet is already cached, a batch run reads the cache and changes nothing. */
  lemma {:induction false} ScoreAllCached(cache: map<string, real>, t: Table, ws: seq<string>, stdDev: seq<real> -> real)
    requires forall i :: 0 <= i < |ws| ==> ws[i] in cache
    ensures ScoreAll(cache, t, ws, stdDev).cache == cache
    ensures forall i :: 0 <= i < |ws| ==> ScoreAll(cache, t, ws, stdDev).rows[i].creditScore == cache[ws[i]]
  {
    if |ws| > 0 {
      var p := ws[..|ws| - 1];
      ScoreAllCached(cache, t, p, stdDev);
      var b := ScoreAll(cache, t, ws, stdDev);
      forall i | 0 <= i < |ws|
        ensures b.rows[i].creditScore == cache[ws[i]]
      {
        if i < |p| {
          assert b.rows[i] == ScoreAll(cache, t, p, stdDev).rows[i];
        }
      }
    }
  }

  /**
   * Running the batch a second time, on the cache the first run left,
   * yields the same rows and the same cache.
   */
  lemma ScoreAllTwice(cache: map<string, real>, t: Table, ws: seq<string>, stdDev: seq<real> -> real)
    requires forall i :: 0 <= i < |ws| ==> ws[i] in Wallets(t.rows)
    ensures ScoreAll(ScoreAll(cache, t, ws, stdDev).cache, t, ws, stdDev) == ScoreAll(cache, t, ws, stdDev)
  {
    var b := ScoreAll(cache, t, ws, stdDev);
    ScoreAllStores(cache, t, ws, stdDev);
    ScoreAllCached(b.cache, t, ws, stdDev);
    var b2 := ScoreAll(b.cache, t, ws, stdDev);
    assert b2.rows == b.rows;
  }

  class AaveCreditScorer {
    /** The sample standard deviation used for `amount_std` (a library call). */
    const stdDev: seq<real> -> real
    var transactions: Option<Table>
    var walletScores: map<string, real>

    /** Every cached score is the score of the currently loaded table. */
    ghost predicate CacheAgrees()
      reads this
    {
      transactions.Some? ==> Agrees(walletScores, transactions.value, stdDev)
    }

    constructor (stdDev: seq<real> -> real)
      ensures this.stdDev == stdDev
      ensures transactions == None && walletScores == map[]
      ensures CacheAgrees()
    {
      this.stdDev := stdDev;
      transactions := None;
      walletScores := map[];
    }

    /**
     * Installs the loader's table. The cache is left as it is, so scores
     * cached for an earlier table stay in it.
     */
    method LoadData(t: Table)
      modifies this`transactions
      ensures transactions == Some(t)
      ensures old(walletScores) == map[] ==> CacheAgrees()
    {
      transactions := Some(t);
    }

    /**
     * A cached score is returned as it is, even without data; otherwise
     * the missing data is an error, or the lookup-or-compute happens on
     * the loaded table.
     */
    method CalculateCreditScore(w: string) returns (r: Result<real, ScorerError>)
      modifies this`walletScores
      ensures w in old(walletScores) ==> r == Success(old(walletScores)[w]) && walletScores == old(walletScores)
      ensures w !in old(walletScores) && transactions.None? ==>
                r == Failure(NoTransactionData) && walletScores == old(walletScores)
      ensures transactions.Some? ==>
                r.Success? && Lookup(r.value, walletScores) == CacheLookup(old(walletScores), transactions.value, w, stdDev)
      ensures old(CacheAgrees()) ==> CacheAgrees()
    {
      if w in walletScores {
        return Success(walletScores[w]);
      }
      if transactions.None? {
        return Failure(NoTransactionData);
      }
      var features := WalletFeatures(transactions.value, w, stdDev);
      if features.None? {
        return Success(MinScore as real);
      }
      var f := features.value;
      var score := BaseScore as real;
      score := score + ActivityScore(f);
      score := score + LongevityScore(f);
      score := score + DiversityScore(f);
      var adjustment := CalculateBehaviorAdjustment(f);
      score := score + adjustment;
      score := Max(MinScore as real, Min(MaxScore as real, score));
      assert score == WalletScore(transactions.value, w, stdDev) by {
        assert score == Clamp(RawScore(f));
      }
      walletScores := walletScores[w := score];
      return Success(score);
    }

    /** One iteration of the batch loop: scores `wallets[i]` and appends its row. */
    method ScoreNext(ghost cache0: map<string, real>, ghost t: Table, wallets: seq<string>, i: nat, results: seq<ScoreRow>)
      returns (next: seq<ScoreRow>)
      requires transactions == Some(t) && i < |wallets|
      requires Batch(results, walletScores) == ScoreAll(cache0, t, wallets[..i], stdDev)
      modifies this`walletScores
      ensures Batch(next, walletScores) == ScoreAll(cache0, t, wallets[..i + 1], stdDev)
    {
      var w := wallets[i];
      assert wallets[..i + 1][..i] == wallets[..i];
      var score := CalculateCreditScore(w);
      next := results + [ScoreRow(w, score.value)];
    }

    /**
     * One row per distinct wallet, in first-appearance order, each holding
     * the lookup-or-compute score threaded through the cache.
     */
    method ScoreAllWallets() returns (r: Result<seq<ScoreRow>, ScorerError>)
      modifies this`walletScores
      ensures transactions.None? ==> r == Failure(NoTransactionData) && walletScores == old(walletScores)
      ensures transactions.Some? ==>
                var b := ScoreAll(old(walletScores), transactions.value, Distinct(Wallets(transactions.value.rows)), stdDev);
                r == Success(b.rows) && walletScores == b.cache
      ensures old(CacheAgrees()) ==> CacheAgrees()
    {
      if transactions.None? {
        return Failure(NoTransactionData);
      }
      var t := transactions.value;
      var wallets := Distinct(Wallets(t.rows));
      ghost var cache0 := walletScores;
      var results: seq<ScoreRow> := [];
      for i := 0 to |wallets|
        invariant Batch(results, walletScores) == ScoreAll(cache0, t, wallets[..i], stdDev)
      {
        results := ScoreNext(cache0, t, wallets, i, results);
      }
      assert wallets[..|wallets|] == wallets;
      if Agrees(cache0, t, stdDev) {
        ScoreAllAgrees(cache0, t, wallets, stdDev);
      }
      return Success(results);
    }
  }

  /** Asking for the same wallet's score a second time returns the same result. */
  method RecalculateCreditScore(s: AaveCreditScorer, w: string) returns (first: Result<real, ScorerError>, second: Result<real, ScorerError>)
    modifies s`walletScores
    ensures first == second
  {
    first := s.CalculateCreditScore(w);
    second := s.CalculateCreditScore(w);
    if s.transactions.Some? {
      CacheLookupTwice(old(s.walletScores), s.transactions.value, w, s.stdDev);
    }
  }

  /** Scoring every wallet a second time returns the same table and cache. */
  method RescoreAllWallets(s: AaveCreditScorer) returns (first: Result<seq<ScoreRow>, ScorerError>, second: Result<seq<ScoreRow>, ScorerError>)
    modifies s`walletScores
    ensures first == second
  {
    first := s.ScoreAllWallets();
    second := s.ScoreAllWallets();
    if s.transactions.Some? {
      var t := s.transactions.value;
      ScoreAllTwice(old(s.walletScores), t, Distinct(Wallets(t.rows)), s.stdDev);
    }
  }
}
