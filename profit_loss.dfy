/** Realised profit per security by first-in-first-out matching of sells
    against open buy lots, as the dashboard computes it. Amounts are exact
    reals; a SELL's profit is taken from the sell volume still unmatched
    when each lot is reached, exactly as the code does it. */
module ProfitLoss {
  import opened Ledger

  /** An open buy lot: the amount not yet matched and the date it was bought. */
  datatype Lot = Lot(amount: real, date: Date)

  /** What one SELL does to the lot queue: the lots left and the profit it adds. */
  datatype Match = Match(rest: seq<Lot>, gain: real)

  /** The matcher's state between two trades of one security. */
  datatype Book = Book(queue: seq<Lot>, profit: real)

  /** The volume held in open lots. */
  function OpenVolume(queue: seq<Lot>): real
  {
    SumBy(queue, (l: Lot) => l.amount)
  }

  ghost predicate NonNegativeLots(queue: seq<Lot>)
  {
    forall i :: 0 <= i < |queue| ==> queue[i].amount >= 0.0
  }

  function Max(x: real, y: real): real
  {
    if x < y then y else x
  }

  /** For a lot larger than the remaining sell, the code adds
      `sell - lot * (sell / lot)`: nothing, over exact reals. */
  lemma PartialLotGainIsZero(lot: real, sell: real)
    requires 0.0 < sell < lot
    ensures sell - lot * (sell / lot) == 0.0
  {
  }

  /** The SELL loop: while sell volume remains and a lot is open, take the
      head lot. A lot that fits is consumed and adds `sell - lot`; a larger
      lot goes back at the head reduced by the sell, and the sell is used
      up. Volume left when the queue runs out is dropped. */
  function Sell(queue: seq<Lot>, sell: real): (m: Match)
    ensures m.gain >= 0.0
    decreases |queue|
  {
    if sell > 0.0 && queue != [] then
      var lot := queue[0];
      if lot.amount <= sell then
        var m := Sell(queue[1..], sell - lot.amount);
        Match(m.rest, (sell - lot.amount) + m.gain)
      else
        PartialLotGainIsZero(lot.amount, sell);
        Match([Lot(lot.amount - sell, lot.date)] + queue[1..], sell - lot.amount * (sell / lot.amount))
    else
      Match(queue, 0.0)
  }

  /** A SELL takes exactly `min(sell, open volume)` out of the queue, keeps
      every lot non-negative, and empties the queue when it exceeds the open
      volume (the excess is dropped). */
  lemma {:induction false} SellConservesVolume(queue: seq<Lot>, sell: real)
    requires NonNegativeLots(queue)
    requires sell >= 0.0
    ensures NonNegativeLots(Sell(queue, sell).rest)
    ensures OpenVolume(Sell(queue, sell).rest) == Max(0.0, OpenVolume(queue) - sell)
    ensures sell > OpenVolume(queue) ==> Sell(queue, sell).rest == []
    decreases |queue|
  {
    OpenVolumeNonNegative(queue);
    if sell > 0.0 && queue != [] {
      var lot := queue[0];
      assert OpenVolume(queue) == lot.amount + OpenVolume(queue[1..]);
      if lot.amount <= sell {
        SellConservesVolume(queue[1..], sell - lot.amount);
      } else {
        var rest := [Lot(lot.amount - sell, lot.date)] + queue[1..];
        assert rest[1..] == queue[1..];
        assert OpenVolume(rest) == (lot.amount - sell) + OpenVolume(queue[1..]);
        OpenVolumeNonNegative(queue[1..]);
      }
    }
  }

  lemma {:induction false} OpenVolumeNonNegative(queue: seq<Lot>)
    requires NonNegativeLots(queue)
    ensures OpenVolume(queue) >= 0.0
    decreases |queue|
  {
    if queue != [] {
      OpenVolumeNonNegative(queue[1..]);
    }
  }

  /** A SELL only consumes from the head: what is left is a tail of the
      queue whose first lot may have been reduced, keeping its date. */
  lemma {:induction false} SellConsumesFromHead(queue: seq<Lot>, sell: real)
    ensures |Sell(queue, sell).rest| <= |queue|
    ensures var rest, k := Sell(queue, sell).rest, |queue| - |Sell(queue, sell).rest|;
      rest == [] ||
      (rest[1..] == queue[k + 1..] && rest[0].date == queue[k].date && rest[0].amount <= queue[k].amount)
    decreases |queue|
  {
    if sell > 0.0 && queue != [] {
      var lot := queue[0];
      if lot.amount <= sell {
        SellConsumesFromHead(queue[1..], sell - lot.amount);
        var rest := Sell(queue[1..], sell - lot.amount).rest;
        var k := |queue[1..]| - |rest|;
        if rest != [] {
          assert queue[1..][k + 1..] == queue[k + 2..];
          assert queue[1..][k] == queue[k + 1];
        }
      }
    }
  }

  /** The over-sell of a 100 lot by 150: the head lot fits and adds the
      unmatched 150 - 100, and the other 50 of volume is dropped. */
  lemma OversellExample()
    ensures Sell([Lot(100.0, 1)], 150.0) == Match([], 50.0)
  {
  }

  /** Selling 50 out of a 200 lot leaves a 150 lot with the same date and
      adds no profit. */
  lemma PartialSellExample()
    ensures Sell([Lot(200.0, 1)], 50.0) == Match([Lot(150.0, 1)], 0.0)
  {
  }

  /** Each fully consumed lot adds the sell volume still unmatched when it is
      reached: 150 over lots of 100 and 30 adds 50 + 20. */
  lemma TwoLotExample()
    ensures Sell([Lot(100.0, 1), Lot(30.0, 2)], 150.0) == Match([], 70.0)
  {
    assert [Lot(100.0, 1), Lot(30.0, 2)][1..] == [Lot(30.0, 2)];
  }

  /** One trade of the loop over a security's trades. A BUY appends its
      absolute amount at the tail; a SELL runs the sell loop on its
      absolute amount; any other type changes nothing. */
  function ApplyTrade(book: Book, trade: Trade): Book
  {
    if trade.transactionType == BUY then
      Book(book.queue + [Lot(Abs(trade.amount), trade.date)], book.profit)
    else if trade.transactionType == SELL then
      var m := Sell(book.queue, Abs(trade.amount));
      Book(m.rest, book.profit + m.gain)
    else
      book
  }

  /** The trades applied in order starting from `book`. */
  function Run(book: Book, trades: seq<Trade>): Book
  {
    if trades == [] then book
    else ApplyTrade(Run(book, trades[..|trades| - 1]), trades[|trades| - 1])
  }

  /** A security's matcher from an empty queue and zero profit. */
  function Replay(trades: seq<Trade>): Book
  {
    Run(Book([], 0.0), trades)
  }

  lemma {:induction false} RunAppend(book: Book, xs: seq<Trade>, ys: seq<Trade>)
    ensures Run(book, xs + ys) == Run(Run(book, xs), ys)
    decreases |ys|
  {
    if ys == [] {
      assert xs + ys == xs;
    } else {
      assert (xs + ys)[..|xs + ys| - 1] == xs + ys[..|ys| - 1];
      RunAppend(book, xs, ys[..|ys| - 1]);
    }
  }

  /** A BUY appends `(|amount|, date)` at the tail and leaves the profit
      alone. */
  lemma BuyAppendsLot(trades: seq<Trade>, buy: Trade)
    requires buy.transactionType == BUY
    ensures Replay(trades + [buy]).queue == Replay(trades).queue + [Lot(Abs(buy.amount), buy.date)]
    ensures Replay(trades + [buy]).profit == Replay(trades).profit
  {
    assert (trades + [buy])[..|trades|] == trades;
  }

  /** A record that is neither a BUY nor a SELL has no effect. */
  lemma OtherTypeIgnored(trades: seq<Trade>, other: Trade)
    requires other.transactionType != BUY && other.transactionType != SELL
    ensures Replay(trades + [other]) == Replay(trades)
  {
    assert (trades + [other])[..|trades|] == trades;
  }

  predicate IsBuyOrSell(t: Trade)
  {
    t.transactionType == BUY || t.transactionType == SELL
  }

  lemma RunSnoc(book: Book, trades: seq<Trade>, t: Trade)
    ensures Run(book, trades + [t]) == ApplyTrade(Run(book, trades), t)
  {
    assert (trades + [t])[..|trades|] == trades;
  }

  /** Dropping every record that is neither a BUY nor a SELL changes nothing. */
  lemma {:induction false} OnlyBuysAndSellsMatter(book: Book, trades: seq<Trade>)
    ensures Run(book, trades) == Run(book, Filter(trades, IsBuyOrSell))
    decreases |trades|
  {
    if trades != [] {
      var init := trades[..|trades| - 1];
      var t := trades[|trades| - 1];
      OnlyBuysAndSellsMatter(book, init);
      var f := Filter(init, IsBuyOrSell);
      assert Filter(trades, IsBuyOrSell) == if IsBuyOrSell(t) then f + [t] else f;
      if IsBuyOrSell(t) {
        RunSnoc(book, f, t);
      }
    }
  }

  /** Open lots never go negative and the running profit never drops below
      zero. */
  lemma {:induction false} ReplayInvariant(trades: seq<Trade>)
    ensures NonNegativeLots(Replay(trades).queue)
    ensures Replay(trades).profit >= 0.0
    decreases |trades|
  {
    if trades != [] {
      var init := trades[..|trades| - 1];
      var t := trades[|trades| - 1];
      ReplayInvariant(init);
      var b := Replay(init);
      if t.transactionType == BUY {
        assert forall i :: 0 <= i < |b.queue| ==> (b.queue + [Lot(Abs(t.amount), t.date)])[i] == b.queue[i];
      } else if t.transactionType == SELL {
        SellConservesVolume(b.queue, Abs(t.amount));
      }
    }
  }

  /** The realised profit of a security is never negative. */
  lemma ProfitNonNegative(trades: seq<Trade>)
    ensures Replay(trades).profit >= 0.0
  {
    ReplayInvariant(trades);
  }

  predicate NoneOfType(trades: seq<Trade>, ty: string)
  {
    forall i :: 0 <= i < |trades| ==> trades[i].transactionType != ty
  }

  /** Without a BUY the queue stays empty, so every SELL is dropped. */
  lemma {:induction false} NoBuyNoLots(book: Book, trades: seq<Trade>)
    requires book.queue == []
    requires NoneOfType(trades, BUY)
    ensures Run(book, trades) == book
    decreases |trades|
  {
    if trades != [] {
      NoBuyNoLots(book, trades[..|trades| - 1]);
    }
  }

  /** Without a SELL the profit never moves. */
  lemma {:induction false} NoSellNoProfit(book: Book, trades: seq<Trade>)
    requires NoneOfType(trades, SELL)
    ensures Run(book, trades).profit == book.profit
    decreases |trades|
  {
    if trades != [] {
      NoSellNoProfit(book, trades[..|trades| - 1]);
    }
  }

  /** Profit is exactly zero when every SELL comes before every BUY; this
      covers the empty input, all-BUY input, and all-SELL input. */
  lemma SellsBeforeBuysEarnNothing(sells: seq<Trade>, buys: seq<Trade>)
    requires NoneOfType(sells, BUY)
    requires NoneOfType(buys, SELL)
    ensures Replay(sells + buys).profit == 0.0
  {
    RunAppend(Book([], 0.0), sells, buys);
    NoBuyNoLots(Book([], 0.0), sells);
    NoSellNoProfit(Book([], 0.0), buys);
  }

  /** The trades of one security in date order: `sort_values('date')` on the
      security's rows. */
  function SecurityTrades(rows: seq<Trade>, security: string): seq<Trade>
  {
    SortBy(TradesOf(rows, security), (t: Trade) => t.date as real)
  }

  /** The sell loop of one SELL: lots are taken from the head of the queue
      while sell volume and lots remain; a lot that is only partly used goes
      back at the head with what is left of it. */
  method SellLots(queue: seq<Lot>, sell: real, profit: real) returns (buyQueue: seq<Lot>, totalProfit: real)
    ensures buyQueue == Sell(queue, sell).rest
    ensures totalProfit == profit + Sell(queue, sell).gain
  {
    buyQueue, totalProfit := queue, profit;
    var sellAmount := sell;
    while sellAmount > 0.0 && buyQueue != []
      invariant Sell(buyQueue, sellAmount).rest == Sell(queue, sell).rest
      invariant totalProfit + Sell(buyQueue, sellAmount).gain == profit + Sell(queue, sell).gain
      decreases |buyQueue| + (if sellAmount > 0.0 then 1 else 0)
    {
      ghost var before := Sell(buyQueue, sellAmount);
      var lot := buyQueue[0];
      buyQueue := buyQueue[1..];
      if lot.amount <= sellAmount {
        assert before.rest == Sell(buyQueue, sellAmount - lot.amount).rest;
        assert before.gain == (sellAmount - lot.amount) + Sell(buyQueue, sellAmount - lot.amount).gain;
        var gain := sellAmount - lot.amount;
        totalProfit := totalProfit + gain;
        sellAmount := sellAmount - lot.amount;
      } else {
        assert before == Match([Lot(lot.amount - sellAmount, lot.date)] + buyQueue, sellAmount - lot.amount * (sellAmount / lot.amount));
        var gain := sellAmount - lot.amount * (sellAmount / lot.amount);
        totalProfit := totalProfit + gain;
        var remaining := lot.amount - sellAmount;
        buyQueue := [Lot(remaining, lot.date)] + buyQueue;
        sellAmount := 0.0;
      }
    }
  }

  /** The FIFO profit of one security of a frame: its records in date order
      replayed from an empty queue. */
  function FifoProfit(rows: seq<Trade>, security: string): real
  {
    Replay(SecurityTrades(rows, security)).profit
  }

  /** The matcher for one security: a queue of open lots, a BUY appended
      at the tail, a SELL consuming from the head. */
  method SecurityProfit(trades: seq<Trade>) returns (totalProfit: real)
    ensures totalProfit == Replay(trades).profit
  {
    var buyQueue: seq<Lot> := [];
    totalProfit := 0.0;
    for i := 0 to |trades|
      invariant Replay(trades[..i]) == Book(buyQueue, totalProfit)
    {
      var trade := trades[i];
      if trade.transactionType == BUY {
        buyQueue := buyQueue + [Lot(Abs(trade.amount), trade.date)];
      } else if trade.transactionType == SELL {
        buyQueue, totalProfit := SellLots(buyQueue, Abs(trade.amount), totalProfit);
      }
      assert trades[..i + 1][..i] == trades[..i];
    }
    assert trades[..|trades|] == trades;
  }

  /** The results dictionary after the securities `secs` have been handled
      in order: each one's FIFO profit stored under its name. */
  function ProfitsOf(rows: seq<Trade>, secs: seq<string>): map<string, real>
  {
    if secs == [] then map[]
    else
      var last := secs[|secs| - 1];
      ProfitsOf(rows, secs[..|secs| - 1])[last := FifoProfit(rows, last)]
  }

  lemma ProfitsOfPrefix(rows: seq<Trade>, secs: seq<string>, i: nat)
    requires i < |secs|
    ensures ProfitsOf(rows, secs[..i + 1]) == ProfitsOf(rows, secs[..i])[secs[i] := FifoProfit(rows, secs[i])]
  {
    assert secs[..i + 1][..i] == secs[..i];
  }

  /** The results hold exactly the securities handled, each with its FIFO
      profit, and no profit is negative. */
  lemma {:induction false} ProfitsOfEntries(rows: seq<Trade>, secs: seq<string>)
    ensures forall s :: s in ProfitsOf(rows, secs) <==> s in secs
    ensures forall s :: s in ProfitsOf(rows, secs) ==> ProfitsOf(rows, secs)[s] == FifoProfit(rows, s)
    ensures forall s :: s in ProfitsOf(rows, secs) ==> ProfitsOf(rows, secs)[s] >= 0.0
  {
    if secs != [] {
      var init, last := secs[..|secs| - 1], secs[|secs| - 1];
      ProfitsOfEntries(rows, init);
      assert secs == init + [last];
      ProfitNonNegative(SecurityTrades(rows, last));
    }
  }

  /** `_calculate_profit_loss`: one entry per distinct security, holding the
      profit of that security's trades in date order. */
  method CalculateProfitLoss(rows: seq<Trade>) returns (results: map<string, real>)
    ensures forall s :: s in results <==> s in SecurityColumn(rows)
    ensures forall s :: s in results ==> results[s] == FifoProfit(rows, s)
    ensures forall s :: s in results ==> results[s] >= 0.0
  {
    results := map[];
    var securities := Distinct(SecurityColumn(rows));
    for i := 0 to |securities|
      invariant results == ProfitsOf(rows, securities[..i])
    {
      var security := securities[i];
      var totalProfit := SecurityProfit(SecurityTrades(rows, security));
      ProfitsOfPrefix(rows, securities, i);
      results := results[security := totalProfit];
    }
    assert securities[..|securities|] == securities;
    ProfitsOfEntries(rows, securities);
  }
}
