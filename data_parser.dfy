/** The transactions parser's checks and the portfolio metrics: the guards
    `parse_transactions` applies to the frame it receives, and the four
    aggregates of `calculate_portfolio_metrics`. */
module DataParser {
  import opened Ledger

  /** A frame: its column names and its rows. */
  datatype Frame = Frame(columns: seq<string>, rows: seq<Trade>)

  /** Why a frame was refused. */
  datatype FrameError =
    | NoData                               // "No data was parsed from the input"
    | ColumnNotFound(column: string)       // a column read before the final check is absent
    | MissingColumns(missing: seq<string>) // "Missing required columns: [...]"

  /** The four metrics of the dashboard's key-metrics row. */
  datatype PortfolioMetrics = PortfolioMetrics(
    totalInvested: real,
    totalSold: real,
    numTransactions: nat,
    uniqueSecurities: nat)

  const ParseColumns: seq<string> := ["date", "security", "transaction_type", "amount"]
  const MetricsColumns: seq<string> := ["transaction_type", "amount", "security"]

  predicate IsLowerAscii(c: char)
  {
    'a' <= c <= 'z'
  }

  /** `str.upper()` on one character, for ASCII letters. */
  function UpperChar(c: char): (u: char)
    ensures !IsLowerAscii(u)
    ensures IsLowerAscii(c) ==> u as int == c as int - 32
    ensures !IsLowerAscii(c) ==> u == c
  {
    if IsLowerAscii(c) then (c as int - 32) as char else c
  }

  /** `str.upper()`, for ASCII letters: every lower-case letter becomes its
      capital and nothing else changes. */
  function Upper(s: string): (u: string)
    ensures |u| == |s|
    ensures forall i :: 0 <= i < |s| ==> u[i] == UpperChar(s[i])
    ensures forall i :: 0 <= i < |u| ==> !IsLowerAscii(u[i])
  {
    seq(|s|, i requires 0 <= i < |s| => UpperChar(s[i]))
  }

  /** Upper-casing twice is upper-casing once. */
  lemma UpperIdempotent(s: string)
    ensures Upper(Upper(s)) == Upper(s)
  {
  }

  lemma UpperBuy()
    ensures Upper("buy") == BUY && Upper("Sell") == SELL
  {
  }

  function NormalizeType(t: Trade): Trade
  {
    t.(transactionType := Upper(t.transactionType))
  }

  /** `parse_transactions` after the model's response is turned into a
      frame: an empty frame is refused; the `date`, `transaction_type` and
      `amount` columns are read (and must exist) in that order; the types are
      upper-cased; then any of the four required columns still missing is
      reported. */
  function ParseTransactions(df: Frame): (r: Result<Frame, FrameError>)
    ensures r == Err(NoData) <==> df.rows == [] || df.columns == []
    ensures r.Ok? <==> df.rows != [] && df.columns != [] && forall c :: c in ParseColumns ==> c in df.columns
    ensures r.Ok? ==> r.value.columns == df.columns && |r.value.rows| == |df.rows|
    ensures r.Ok? ==> forall i :: 0 <= i < |df.rows| ==>
      r.value.rows[i].transactionType == Upper(df.rows[i].transactionType) &&
      r.value.rows[i].date == df.rows[i].date &&
      r.value.rows[i].security == df.rows[i].security &&
      r.value.rows[i].amount == df.rows[i].amount
    ensures r.Ok? ==> forall i, k :: 0 <= i < |r.value.rows| && 0 <= k < |r.value.rows[i].transactionType| ==>
      !IsLowerAscii(r.value.rows[i].transactionType[k])
  {
    if df.rows == [] || df.columns == [] then Err(NoData)
    else if "date" !in df.columns then Err(ColumnNotFound("date"))
    else if "transaction_type" !in df.columns then Err(ColumnNotFound("transaction_type"))
    else if "amount" !in df.columns then Err(ColumnNotFound("amount"))
    else
      var rows := seq(|df.rows|, i requires 0 <= i < |df.rows| => NormalizeType(df.rows[i]));
      var missing := Missing(ParseColumns, df.columns);
      if missing != [] then Err(MissingColumns(missing))
      else Ok(Frame(df.columns, rows))
  }

  /** The mask `df['transaction_type'] == ty`. */
  function OfType(ty: string): Trade -> bool
  {
    (t: Trade) => t.transactionType == ty
  }

  function Amount(t: Trade): real
  {
    t.amount
  }

  /** `df[df['transaction_type'] == ty]['amount'].sum()`. */
  function TypeSum(rows: seq<Trade>, ty: string): real
  {
    SumBy(Filter(rows, OfType(ty)), Amount)
  }

  /** `calculate_portfolio_metrics`: the required columns are checked first;
      then |sum of BUY amounts|, |sum of SELL amounts|, the number of rows
      and the number of distinct securities. */
  function CalculatePortfolioMetrics(df: Frame): (r: Result<PortfolioMetrics, FrameError>)
    ensures r.Err? <==> exists c :: c in MetricsColumns && c !in df.columns
    ensures r.Err? ==> r.error.MissingColumns? && r.error.missing != []
    ensures r.Err? ==> forall c :: c in r.error.missing <==> c in MetricsColumns && c !in df.columns
    ensures r.Ok? ==> r.value.totalInvested >= 0.0 && r.value.totalSold >= 0.0
    ensures r.Ok? ==> r.value.numTransactions == |df.rows|
    ensures r.Ok? ==> r.value.uniqueSecurities <= r.value.numTransactions
    ensures r.Ok? ==> (r.value.uniqueSecurities == 0 <==> df.rows == [])
  {
    var missing := Missing(MetricsColumns, df.columns);
    if missing != [] then Err(MissingColumns(missing))
    else
      Ok(PortfolioMetrics(
        Abs(TypeSum(df.rows, BUY)),
        Abs(TypeSum(df.rows, SELL)),
        |df.rows|,
        |Distinct(SecurityColumn(df.rows))|))
  }

  /** The count of distinct securities is the size of the set of securities. */
  lemma UniqueSecuritiesIsSetSize(df: Frame)
    requires CalculatePortfolioMetrics(df).Ok?
    ensures CalculatePortfolioMetrics(df).value.uniqueSecurities == |set s | s in SecurityColumn(df.rows)|
  {
    DistinctCardinality(SecurityColumn(df.rows));
  }

  /** A record that is neither a BUY nor a SELL adds to the record count and
      to neither total. */
  lemma OtherTypeCountsOnlyAsRecord(df: Frame, other: Trade)
    requires CalculatePortfolioMetrics(df).Ok?
    requires other.transactionType != BUY && other.transactionType != SELL
    ensures var m, m' := CalculatePortfolioMetrics(df).value, CalculatePortfolioMetrics(Frame(df.columns, df.rows + [other])).value;
      m'.totalInvested == m.totalInvested && m'.totalSold == m.totalSold &&
      m'.numTransactions == m.numTransactions + 1
  {
    assert (df.rows + [other])[..|df.rows|] == df.rows;
  }

  predicate BuysAndSellsOnly(rows: seq<Trade>)
  {
    forall i :: 0 <= i < |rows| ==>
      (rows[i].transactionType == BUY || rows[i].transactionType == SELL) && rows[i].amount >= 0.0
  }

  lemma TypeSumsSplitAmounts(rows: seq<Trade>)
    requires BuysAndSellsOnly(rows)
    ensures TypeSum(rows, BUY) >= 0.0 && TypeSum(rows, SELL) >= 0.0
    ensures TypeSum(rows, BUY) + TypeSum(rows, SELL) == SumBy(rows, Amount)
  {
    var buys, sells := Where(OfType(BUY), Amount), Where(OfType(SELL), Amount);
    assert TypeSum(rows, BUY) == SumBy(rows, buys) >= 0.0 by {
      SumByFilter(rows, OfType(BUY), Amount);
      NonNegativeSum(rows, buys);
    }
    assert TypeSum(rows, SELL) == SumBy(rows, sells) >= 0.0 by {
      SumByFilter(rows, OfType(SELL), Amount);
      NonNegativeSum(rows, sells);
    }
    SumBySplit(rows, Amount, buys, sells);
  }

  /** With BUY and SELL records only and no negative amounts, the two totals
      split the sum of all amounts. */
  lemma TotalsSplitAmounts(df: Frame)
    requires CalculatePortfolioMetrics(df).Ok?
    requires BuysAndSellsOnly(df.rows)
    ensures var m := CalculatePortfolioMetrics(df).value;
      m.totalInvested + m.totalSold == SumBy(df.rows, Amount)
  {
    TypeSumsSplitAmounts(df.rows);
  }

  lemma {:induction false} NonNegativeSum(s: seq<Trade>, f: Trade -> real)
    requires forall i :: 0 <= i < |s| ==> f(s[i]) >= 0.0
    ensures SumBy(s, f) >= 0.0
    decreases |s|
  {
    if s != [] {
      NonNegativeSum(s[1..], f);
    }
  }

  /** `total_invested` is the absolute value of the sum, not the sum of
      absolute values: a BUY of 100 and a BUY of -40 give 60. */
  lemma AbsoluteValueOfSum()
    ensures CalculatePortfolioMetrics(Frame(MetricsColumns, BuyAndNegativeBuy)).value.totalInvested == 60.0
  {
    var rows := BuyAndNegativeBuy;
    SumByFilter(rows, OfType(BUY), Amount);
    SumOfTwo(rows, Where(OfType(BUY), Amount));
  }

  /** A BUY of 100 and a BUY of -40. */
  const BuyAndNegativeBuy: seq<Trade> := [Trade(1, "AAPL", BUY, 100.0), Trade(2, "AAPL", BUY, -40.0)]

  lemma SumOfTwo(s: seq<Trade>, f: Trade -> real)
    requires |s| == 2
    ensures SumBy(s, f) == f(s[0]) + f(s[1])
  {
    var t := s[1..];
    assert t[1..] == [];
    assert SumBy(t, f) == f(t[0]) + SumBy(t[1..], f);
    assert t[0] == s[1];
  }

  /** BUY 100 and SELL 60 of one security and BUY 40 of another. */
  const ExampleRows: seq<Trade> :=
    [Trade(1, "AAPL", BUY, 100.0), Trade(2, "AAPL", SELL, 60.0), Trade(3, "MSFT", BUY, 40.0)]

  lemma SumOfThree(s: seq<Trade>, f: Trade -> real)
    requires |s| == 3
    ensures SumBy(s, f) == f(s[0]) + f(s[1]) + f(s[2])
  {
    var t := s[1..];
    var u := t[1..];
    assert SumBy(u, f) == f(s[2]) by {
      assert u == [s[2]];
      assert u[1..] == [];
    }
    assert SumBy(t, f) == f(s[1]) + SumBy(u, f);
  }

  lemma ExampleSums()
    ensures TypeSum(ExampleRows, BUY) == 140.0 && TypeSum(ExampleRows, SELL) == 60.0
  {
    var rows := ExampleRows;
    assert TypeSum(rows, BUY) == 140.0 by {
      SumByFilter(rows, OfType(BUY), Amount);
      SumOfThree(rows, Where(OfType(BUY), Amount));
    }
    assert TypeSum(rows, SELL) == 60.0 by {
      SumByFilter(rows, OfType(SELL), Amount);
      SumOfThree(rows, Where(OfType(SELL), Amount));
    }
  }

  lemma ExampleSecurities()
    ensures Distinct(SecurityColumn(ExampleRows)) == ["AAPL", "MSFT"]
  {
    assert SecurityColumn(ExampleRows) == ["AAPL", "AAPL", "MSFT"];
    assert ["AAPL", "AAPL", "MSFT"][..2] == ["AAPL", "AAPL"];
    assert ["AAPL", "AAPL"][..1] == ["AAPL"];
  }

  /** The example's metrics: 140 invested, 60 sold, 3 records, 2 securities. */
  lemma MetricsExample()
    ensures CalculatePortfolioMetrics(Frame(MetricsColumns, ExampleRows)) == Ok(PortfolioMetrics(140.0, 60.0, 3, 2))
  {
    ExampleSums();
    ExampleSecurities();
  }
}
