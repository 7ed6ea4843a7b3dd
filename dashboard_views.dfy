/** The dashboard's data steps built on the matcher and the metrics: the
    top gainers, the chart order of the profit series, the cumulative SELL
    series, the net position of each security and the net profit figure. */
module DashboardViews {
  import opened Ledger
  import opened ProfitLoss
  import opened DataParser

  /** One entry of `pd.Series(results)`: a security and its profit. */
  datatype Entry = Entry(security: string, profit: real)

  /** `pd.Series(results)` with the keys in insertion order. */
  function SeriesOf(keys: seq<string>, results: map<string, real>): (r: seq<Entry>)
    requires forall k :: k in keys ==> k in results
    ensures |r| == |keys|
    ensures forall i :: 0 <= i < |keys| ==> r[i] == Entry(keys[i], results[keys[i]])
    ensures forall e :: e in r ==> e.security in results && results[e.security] == e.profit
  {
    seq(|keys|, i requires 0 <= i < |keys| => Entry(keys[i], results[keys[i]]))
  }

  predicate IsGain(e: Entry)
  {
    e.profit > 0.0
  }

  function Profit(e: Entry): real
  {
    e.profit
  }

  function NegatedProfit(e: Entry): real
  {
    -e.profit
  }

  /** `security_pl[security_pl > 0].sort_values(ascending=False)`. */
  function Gainers(series: seq<Entry>): seq<Entry>
  {
    SortBy(Filter(series, IsGain), NegatedProfit)
  }

  /** `... .head(3)`: the (at most) three largest positive profits, the
      largest first. */
  function TopGainers(series: seq<Entry>): seq<Entry>
  {
    var g := Gainers(series);
    if |g| <= 3 then g else g[..3]
  }

  lemma MultisetPrefix<T>(s: seq<T>, k: nat)
    requires k <= |s|
    ensures multiset(s[..k]) <= multiset(s)
  {
    assert s == s[..k] + s[k..];
  }

  lemma FilterSubMultiset<T(!new)>(s: seq<T>, p: T -> bool)
    ensures multiset(Filter(s, p)) <= multiset(s)
  {
    var f := Filter(s, p);
    assert forall x :: multiset(f)[x] <= multiset(s)[x];
  }

  lemma GainersArePositives(series: seq<Entry>)
    ensures multiset(Gainers(series)) == multiset(Filter(series, IsGain))
    ensures |Gainers(series)| == |Filter(series, IsGain)|
    ensures SortedBy(Gainers(series), NegatedProfit)
  {
    var g, pos := Gainers(series), Filter(series, IsGain);
    assert |multiset(g)| == |multiset(pos)|;
  }

  /** At most three gainers: as many as there are positive entries, up to
      three. */
  lemma TopGainersCount(series: seq<Entry>)
    ensures |TopGainers(series)| <= 3
    ensures var n := |Filter(series, IsGain)|;
      |TopGainers(series)| == if n <= 3 then n else 3
  {
    GainersArePositives(series);
  }

  /** The gainers shown are the first ones of the sorted positives. */
  lemma TopGainersIsPrefix(series: seq<Entry>)
    ensures |TopGainers(series)| <= |Gainers(series)|
    ensures TopGainers(series) == Gainers(series)[..|TopGainers(series)|]
  {
    var g := Gainers(series);
    assert TopGainers(series) == if |g| <= 3 then g else g[..3];
    assert g[..|g|] == g;
  }

  /** Drawn from the series, no entry more often than it appears there. */
  lemma TopGainersSubMultiset(series: seq<Entry>)
    ensures multiset(TopGainers(series)) <= multiset(series)
  {
    var g, r := Gainers(series), TopGainers(series);
    TopGainersIsPrefix(series);
    MultisetPrefix(g, |r|);
    GainersArePositives(series);
    FilterSubMultiset(series, IsGain);
  }

  /** Only positive entries, drawn from the series. */
  lemma TopGainersDrawnFromPositives(series: seq<Entry>)
    ensures multiset(TopGainers(series)) <= multiset(series)
    ensures forall e :: e in TopGainers(series) ==> e in series && e.profit > 0.0
  {
    var g, r := Gainers(series), TopGainers(series);
    TopGainersSubMultiset(series);
    TopGainersIsPrefix(series);
    GainersArePositives(series);
    forall e | e in r
      ensures e in series && e.profit > 0.0
    {
      var i :| 0 <= i < |r| && r[i] == e;
      assert g[i] == e;
      assert e in multiset(g);
      assert e in Filter(series, IsGain);
    }
  }

  /** The largest profit first. */
  lemma TopGainersDescending(series: seq<Entry>)
    ensures var r := TopGainers(series);
      forall i, j :: 0 <= i < j < |r| ==> r[i].profit >= r[j].profit
  {
    var g, r := Gainers(series), TopGainers(series);
    GainersArePositives(series);
    forall i, j | 0 <= i < j < |r|
      ensures r[i].profit >= r[j].profit
    {
      assert NegatedProfit(g[i]) <= NegatedProfit(g[j]);
    }
  }

  /** In a list sorted by decreasing profit, an entry outside the first `k`
      has no more profit than any of them. */
  lemma SortedPrefixDominates(g: seq<Entry>, k: nat, e: Entry)
    requires k <= |g| && SortedBy(g, NegatedProfit)
    requires e in g && e !in g[..k]
    ensures forall i :: 0 <= i < k ==> e.profit <= g[i].profit
  {
    var j :| 0 <= j < |g| && g[j] == e;
    assert j >= k;
    forall i | 0 <= i < k
      ensures e.profit <= g[i].profit
    {
      assert NegatedProfit(g[i]) <= NegatedProfit(g[j]);
    }
  }

  /** No positive entry left out beats one that is shown. */
  lemma TopGainersAreTheLargest(series: seq<Entry>)
    ensures var r := TopGainers(series);
      forall e :: e in series && IsGain(e) && e !in r ==> forall i :: 0 <= i < |r| ==> e.profit <= r[i].profit
  {
    var g, r := Gainers(series), TopGainers(series);
    GainersArePositives(series);
    TopGainersIsPrefix(series);
    forall e | e in series && IsGain(e) && e !in r
      ensures forall i :: 0 <= i < |r| ==> e.profit <= r[i].profit
    {
      assert e in g by {
        assert e in Filter(series, IsGain);
        assert e in multiset(g);
      }
      SortedPrefixDominates(g, |r|, e);
    }
  }

  /** Every gainer shown is a key of the profit map with that profit. */
  lemma TopGainersFromResults(keys: seq<string>, results: map<string, real>)
    requires forall k :: k in keys ==> k in results
    ensures forall e :: e in TopGainers(SeriesOf(keys, results)) ==>
      e.security in results && results[e.security] == e.profit && e.profit > 0.0
  {
    var series := SeriesOf(keys, results);
    TopGainersDrawnFromPositives(series);
  }

  /** No security of the profit map with a positive profit that is left
      off the top gainers beats one that is shown. */
  lemma TopGainersAreTheLargestOfResults(keys: seq<string>, results: map<string, real>)
    requires forall k :: k in keys ==> k in results
    ensures var r := TopGainers(SeriesOf(keys, results));
      forall k :: k in keys && results[k] > 0.0 && Entry(k, results[k]) !in r ==>
        forall i :: 0 <= i < |r| ==> results[k] <= r[i].profit
  {
    var series := SeriesOf(keys, results);
    TopGainersAreTheLargest(series);
    forall k | k in keys
      ensures Entry(k, results[k]) in series
    {
      var i :| 0 <= i < |keys| && keys[i] == k;
      assert series[i] == Entry(k, results[k]);
    }
  }

  /** `pl_by_security.sort_values(ascending=True)`: the same entries, the
      smallest profit first. */
  function ChartOrder(series: seq<Entry>): (r: seq<Entry>)
    ensures multiset(r) == multiset(series)
    ensures forall i, j :: 0 <= i < j < |r| ==> r[i].profit <= r[j].profit
  {
    var r := SortBy(series, Profit);
    assert forall i, j :: 0 <= i < j < |r| ==> Profit(r[i]) <= Profit(r[j]);
    r
  }

  /** The chart's per-record contribution: minus the amount of a SELL, zero
      for anything else. */
  function SellContribution(t: Trade): real
  {
    if t.transactionType == SELL then -t.amount else 0.0
  }

  function ByDate(t: Trade): real
  {
    t.date as real
  }

  /** `cumsum()` of `f` over `s`, starting from `start`. */
  function RunningTotals(start: real, s: seq<Trade>, f: Trade -> real): (r: seq<real>)
    ensures |r| == |s|
    ensures forall i :: 0 <= i < |s| ==> r[i] == start + SumBy(s[..i + 1], f)
    decreases |s|
  {
    if s == [] then []
    else
      var next := start + f(s[0]);
      var rest := RunningTotals(next, s[1..], f);
      assert forall i :: 0 <= i < |s| ==> ([next] + rest)[i] == start + SumBy(s[..i + 1], f) by {
        forall i | 0 <= i < |s|
          ensures ([next] + rest)[i] == start + SumBy(s[..i + 1], f)
        {
          if i > 0 {
            assert s[..i + 1][1..] == s[1..][..i];
          }
        }
      }
      [next] + rest
  }

  /** `_render_monthly_performance`: the records sorted by date, then the
      running total of their contributions. */
  function CumulativePl(rows: seq<Trade>): seq<real>
  {
    RunningTotals(0.0, SortBy(rows, ByDate), SellContribution)
  }

  /** Each point of the series is the sum of the contributions of the
      records up to it in date order. */
  lemma CumulativeIsPrefixSum(rows: seq<Trade>)
    ensures |CumulativePl(rows)| == |rows|
    ensures forall i :: 0 <= i < |rows| ==>
      CumulativePl(rows)[i] == SumBy(SortBy(rows, ByDate)[..i + 1], SellContribution)
  {
    assert |SortBy(rows, ByDate)| == |rows| by {
      assert |multiset(SortBy(rows, ByDate))| == |multiset(rows)|;
    }
  }

  lemma {:induction false} NonPositiveSum(s: seq<Trade>, f: Trade -> real)
    requires forall i :: 0 <= i < |s| ==> f(s[i]) <= 0.0
    ensures SumBy(s, f) <= 0.0
    decreases |s|
  {
    if s != [] {
      NonPositiveSum(s[1..], f);
    }
  }

  /** Running totals of terms that are never positive never rise. */
  lemma PrefixSumsNonIncreasing(s: seq<Trade>, f: Trade -> real)
    requires forall t :: t in s ==> f(t) <= 0.0
    ensures forall i, j :: 0 <= i <= j <= |s| ==> SumBy(s[..i], f) >= SumBy(s[..j], f)
  {
    forall i, j | 0 <= i <= j <= |s|
      ensures SumBy(s[..i], f) >= SumBy(s[..j], f)
    {
      var tail := s[i..j];
      assert s[..j] == s[..i] + tail;
      SumByAppend(s[..i], tail, f);
      assert forall k :: 0 <= k < |tail| ==> tail[k] in s;
      NonPositiveSum(tail, f);
    }
  }

  /** With no negative SELL amount the series never rises. */
  lemma CumulativeNonIncreasing(rows: seq<Trade>)
    requires forall i :: 0 <= i < |rows| && rows[i].transactionType == SELL ==> rows[i].amount >= 0.0
    ensures forall i, j :: 0 <= i < j < |CumulativePl(rows)| ==> CumulativePl(rows)[i] >= CumulativePl(rows)[j]
  {
    var s := SortBy(rows, ByDate);
    forall t | t in s
      ensures SellContribution(t) <= 0.0
    {
      assert t in multiset(rows);
    }
    PrefixSumsNonIncreasing(s, SellContribution);
    CumulativeIsPrefixSum(rows);
    var c := CumulativePl(rows);
    forall i, j | 0 <= i < j < |c|
      ensures c[i] >= c[j]
    {
      assert SumBy(s[..i + 1], SellContribution) >= SumBy(s[..j + 1], SellContribution);
    }
  }

  /** Summing the chart's contributions sums the SELL amounts, negated. */
  lemma SellContributionSum(rows: seq<Trade>)
    ensures SumBy(rows, SellContribution) == -TypeSum(rows, SELL)
  {
    SumByNegated(rows, SellContribution, Where(OfType(SELL), Amount));
    SumByFilter(rows, OfType(SELL), Amount);
  }

  /** The last point of the series is minus the sum of the SELL amounts,
      whatever the order the records were sorted into. */
  lemma CumulativeEndsAtSellTotal(rows: seq<Trade>)
    requires rows != []
    ensures CumulativePl(rows)[|rows| - 1] == -TypeSum(rows, SELL)
  {
    var s := SortBy(rows, ByDate);
    assert CumulativePl(rows)[|rows| - 1] == SumBy(s, SellContribution) by {
      CumulativeIsPrefixSum(rows);
      assert s[..|rows|] == s;
    }
    assert SumBy(s, SellContribution) == SumBy(rows, SellContribution) by {
      SumByPermutation(s, rows, SellContribution);
    }
    SellContributionSum(rows);
  }

  /** No negative SELL amount, no negative SELL total. */
  lemma SellTotalNonNegative(rows: seq<Trade>)
    requires forall i :: 0 <= i < |rows| && rows[i].transactionType == SELL ==> rows[i].amount >= 0.0
    ensures TypeSum(rows, SELL) >= 0.0
  {
    var sells := Where(OfType(SELL), Amount);
    SumByFilter(rows, OfType(SELL), Amount);
    assert forall i :: 0 <= i < |rows| ==> sells(rows[i]) >= 0.0;
    NonNegativeSum(rows, sells);
  }

  /** When no SELL amount is negative the series ends at minus the metrics'
      `total_sold`. */
  lemma CumulativeEndsAtTotalSold(df: Frame)
    requires df.rows != [] && CalculatePortfolioMetrics(df).Ok?
    requires forall i :: 0 <= i < |df.rows| && df.rows[i].transactionType == SELL ==> df.rows[i].amount >= 0.0
    ensures CumulativePl(df.rows)[|df.rows| - 1] == -CalculatePortfolioMetrics(df).value.totalSold
  {
    CumulativeEndsAtSellTotal(df.rows);
    SellTotalNonNegative(df.rows);
  }

  /** The signed amount of the allocation chart: the amount of a BUY, minus
      the amount of anything else. */
  function NetAmount(t: Trade): real
  {
    if t.transactionType == BUY then t.amount else -t.amount
  }

  /** `df.groupby('security')['net_amount'].sum().abs()`. */
  function Allocation(rows: seq<Trade>): (m: map<string, real>)
    ensures forall s :: s in m <==> s in SecurityColumn(rows)
    ensures forall s :: s in m ==> m[s] >= 0.0
  {
    map s | s in SecurityColumn(rows) :: Abs(SumBy(TradesOf(rows, s), NetAmount))
  }

  /** Over BUY and SELL records the signed amounts add up to what was
      bought minus what was sold. */
  lemma NetAmountSum(rows: seq<Trade>)
    requires forall i :: 0 <= i < |rows| ==> rows[i].transactionType == BUY || rows[i].transactionType == SELL
    ensures SumBy(rows, NetAmount) == TypeSum(rows, BUY) - TypeSum(rows, SELL)
  {
    var buys := Where(OfType(BUY), Amount);
    SumBySplit(rows, NetAmount, buys, SellContribution);
    SumByFilter(rows, OfType(BUY), Amount);
    SellContributionSum(rows);
  }

  /** For BUY and SELL records a security's position is the distance
      between what was bought and what was sold. */
  lemma AllocationIsBoughtMinusSold(rows: seq<Trade>, s: string)
    requires s in SecurityColumn(rows)
    requires forall t :: t in TradesOf(rows, s) ==> t.transactionType == BUY || t.transactionType == SELL
    ensures Allocation(rows)[s] == Abs(TypeSum(TradesOf(rows, s), BUY) - TypeSum(TradesOf(rows, s), SELL))
  {
    var ts := TradesOf(rows, s);
    assert forall i :: 0 <= i < |ts| ==> ts[i] in ts;
    NetAmountSum(ts);
  }

  /** A record added at the end moves its own security's net amount by its
      signed amount and no other security's. */
  lemma NetAmountSnoc(rows: seq<Trade>, t: Trade, s: string)
    ensures SumBy(TradesOf(rows + [t], s), NetAmount) ==
      SumBy(TradesOf(rows, s), NetAmount) + (if t.security == s then NetAmount(t) else 0.0)
  {
    TradesOfSnoc(rows, t, s);
    SumByAppend(TradesOf(rows, s), [t], NetAmount);
  }

  lemma SecurityColumnSnoc(rows: seq<Trade>, t: Trade)
    ensures forall s :: s in SecurityColumn(rows + [t]) <==> s in SecurityColumn(rows) || s == t.security
  {
    assert SecurityColumn(rows + [t]) == SecurityColumn(rows) + [t.security];
  }

  /** Unlike the matcher, the allocation subtracts a record that is
      neither a BUY nor a SELL. */
  lemma AllocationSubtractsOtherTypes(rows: seq<Trade>, other: Trade)
    requires other.transactionType != BUY && other.transactionType != SELL
    ensures var m := Allocation(rows + [other]);
      other.security in m && m[other.security] == Abs(SumBy(TradesOf(rows, other.security), NetAmount) - other.amount)
  {
    NetAmountSnoc(rows, other, other.security);
    SecurityColumnSnoc(rows, other);
  }

  /** A record of another security leaves a security's position alone, and
      its FIFO profit too. */
  lemma OtherSecurityIgnored(rows: seq<Trade>, t: Trade, s: string)
    requires s in SecurityColumn(rows) && t.security != s
    ensures var m := Allocation(rows + [t]);
      s in m && m[s] == Allocation(rows)[s]
    ensures Replay(SecurityTrades(rows + [t], s)) == Replay(SecurityTrades(rows, s))
  {
    NetAmountSnoc(rows, t, s);
    SecurityColumnSnoc(rows, t);
    TradesOfSnoc(rows, t, s);
  }

  /** The net profit/loss metric: `total_sold - total_invested`. */
  function NetProfit(m: PortfolioMetrics): real
  {
    m.totalSold - m.totalInvested
  }

  /** For BUY and SELL records with no negative amount, the net profit is
      minus the sum of the signed amounts of the allocation chart. */
  lemma NetProfitIsMinusNetAmount(df: Frame)
    requires CalculatePortfolioMetrics(df).Ok?
    requires BuysAndSellsOnly(df.rows)
    ensures NetProfit(CalculatePortfolioMetrics(df).value) == -SumBy(df.rows, NetAmount)
  {
    TypeSumsSplitAmounts(df.rows);
    NetAmountSum(df.rows);
  }

  /** A BUY of 100 followed by a SELL of 60 of the same security. */
  const BuyThenPartialSell: seq<Trade> := [Trade(1, "AAPL", BUY, 100.0), Trade(2, "AAPL", SELL, 60.0)]

  lemma PartialSellNetLoss()
    ensures NetProfit(CalculatePortfolioMetrics(Frame(MetricsColumns, BuyThenPartialSell)).value) == -40.0
  {
    var rows := BuyThenPartialSell;
    assert TypeSum(rows, BUY) == 100.0 by {
      SumByFilter(rows, OfType(BUY), Amount);
      SumOfTwo(rows, Where(OfType(BUY), Amount));
    }
    assert TypeSum(rows, SELL) == 60.0 by {
      SumByFilter(rows, OfType(SELL), Amount);
      SumOfTwo(rows, Where(OfType(SELL), Amount));
    }
  }

  lemma PartialSellFifoProfit()
    ensures Replay(BuyThenPartialSell).profit == 0.0
  {
    var rows := BuyThenPartialSell;
    PartialLotGainIsZero(100.0, 60.0);
    assert rows[..1] == [rows[0]];
    var buy := [rows[0]];
    assert buy[..0] == [];
    assert Run(Book([], 0.0), buy) == ApplyTrade(Book([], 0.0), rows[0]);
    assert Abs(rows[0].amount) == 100.0;
    assert Replay(buy) == Book([Lot(100.0, 1)], 0.0);
    assert Sell([Lot(100.0, 1)], 60.0).gain == 0.0;
  }

  /** The net profit is not the FIFO profit: a BUY of 100 followed by a SELL
      of 60 shows a net loss of 40 and a FIFO profit of 0. */
  lemma NetProfitIsNotFifoProfit()
    ensures NetProfit(CalculatePortfolioMetrics(Frame(MetricsColumns, BuyThenPartialSell)).value) !=
      Replay(BuyThenPartialSell).profit
  {
    PartialSellNetLoss();
    PartialSellFifoProfit();
  }
}
