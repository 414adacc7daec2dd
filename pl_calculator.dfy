/** cryptex/pl_calculator.py: the unrealized profit/loss of one market as the
    list of open buy lots left after netting every sell against a stack of
    earlier buys. Deposits and withdrawals of the base currency take part as
    zero-price buys and sells. The exchange collaborator is the value of its
    two reads, get_my_trades() and get_my_transactions(). */
module PLCalculator {
  import opened Wrappers
  import opened Records
  import opened TimeSort

  /** The market argument, unpacked as `base, counter = market`. Unlike the
      adapters' Records.Market (any number of components), the unpacking
      demands exactly two, so the profit/loss code takes this pair. */
  datatype MarketPair = MarketPair(base: string, counter: string)

  /** What the exchange returns from get_my_trades() and get_my_transactions(). */
  datatype ExchangeHistory = ExchangeHistory(trades: seq<Trade>, transactions: seq<Transaction>)

  datatype PLError =
    | PopFromEmptyList   // the IndexError of `acc.pop()` on an empty list
    | NoLotToPushBack    // `oldest_buy.datetime` while `oldest_buy` is still None

  /** The Buy record merge_trades pushes: no trade or order id, the market's currencies. */
  function LotOf(market: MarketPair, time: int, amount: real, price: real): Trade
  {
    Trade(None, Buy, market.base, market.counter, time, None, amount, price, None, None)
  }

  predicate IsLotOf(market: MarketPair, t: Trade)
  {
    t == LotOf(market, t.time, t.amount, t.price)
  }

  predicate AllLotsOf(market: MarketPair, lots: seq<Trade>)
  {
    forall i :: 0 <= i < |lots| ==> IsLotOf(market, lots[i])
  }

  // ---------------------------------------------------------------------
  // Collecting the events of one market

  /** `convert_transaction`: a Deposit becomes a Buy, every other transaction
      a Sell, at price 0 with the transaction's time and amount. */
  function ConvertTransaction(market: MarketPair, tx: Transaction): (t: Trade)
    ensures t.side == Buy <==> tx.kind == Deposit
    ensures t.time == tx.time && t.amount == tx.amount && t.price == 0.0
    ensures t.tradeId == None && t.orderId == None
    ensures t.base == market.base && t.counter == market.counter
  {
    Trade(None, if tx.kind == Deposit then Buy else Sell, market.base, market.counter,
          tx.time, None, tx.amount, 0.0, None, None)
  }

  /** The trades whose base and counter currencies are the market's, in order. */
  function MarketTrades(market: MarketPair, trades: seq<Trade>): (r: seq<Trade>)
    ensures forall t :: t in r <==> t in trades && t.base == market.base && t.counter == market.counter
    decreases |trades|
  {
    if trades == [] then []
    else
      var t := trades[|trades| - 1];
      var r' := MarketTrades(market, trades[..|trades| - 1]);
      assert trades == trades[..|trades| - 1] + [t];
      if t.base == market.base && t.counter == market.counter then r' + [t] else r'
  }

  /** The transactions in the market's base currency, in order. */
  function BaseTransactions(market: MarketPair, txs: seq<Transaction>): (r: seq<Transaction>)
    ensures forall tx :: tx in r <==> tx in txs && tx.currency == market.base
    decreases |txs|
  {
    if txs == [] then []
    else
      var tx := txs[|txs| - 1];
      var r' := BaseTransactions(market, txs[..|txs| - 1]);
      assert txs == txs[..|txs| - 1] + [tx];
      if tx.currency == market.base then r' + [tx] else r'
  }

  /** One trade is kept exactly when it is in the market. */
  lemma MarketTradesOne(market: MarketPair, t: Trade)
    ensures MarketTrades(market, [t]) == if t.base == market.base && t.counter == market.counter then [t] else []
  {
    assert [t][..0] == [];
  }

  /** The comprehension keeps order and multiplicity: filtering `a + b` is
      filtering `a` followed by filtering `b`. */
  lemma {:induction false} MarketTradesAppend(market: MarketPair, a: seq<Trade>, b: seq<Trade>)
    ensures MarketTrades(market, a + b) == MarketTrades(market, a) + MarketTrades(market, b)
    decreases |b|
  {
    if b == [] {
      assert a + b == a;
    } else {
      var b', t := b[..|b| - 1], b[|b| - 1];
      var keep := if t.base == market.base && t.counter == market.counter then [t] else [];
      assert (a + b)[..|a + b| - 1] == a + b';
      assert (a + b)[|a + b| - 1] == t;
      assert MarketTrades(market, a + b) == MarketTrades(market, a + b') + keep;
      assert MarketTrades(market, b) == MarketTrades(market, b') + keep;
      MarketTradesAppend(market, a, b');
    }
  }

  /** One transaction is kept exactly when it is in the base currency. */
  lemma BaseTransactionsOne(market: MarketPair, tx: Transaction)
    ensures BaseTransactions(market, [tx]) == if tx.currency == market.base then [tx] else []
  {
    assert [tx][..0] == [];
  }

  /** The same order and multiplicity for the transactions. */
  lemma {:induction false} BaseTransactionsAppend(market: MarketPair, a: seq<Transaction>, b: seq<Transaction>)
    ensures BaseTransactions(market, a + b) == BaseTransactions(market, a) + BaseTransactions(market, b)
    decreases |b|
  {
    if b == [] {
      assert a + b == a;
    } else {
      var b', tx := b[..|b| - 1], b[|b| - 1];
      var keep := if tx.currency == market.base then [tx] else [];
      assert (a + b)[..|a + b| - 1] == a + b';
      assert (a + b)[|a + b| - 1] == tx;
      assert BaseTransactions(market, a + b) == BaseTransactions(market, a + b') + keep;
      assert BaseTransactions(market, b) == BaseTransactions(market, b') + keep;
      BaseTransactionsAppend(market, a, b');
    }
  }

  function ConvertAll(market: MarketPair, txs: seq<Transaction>): (r: seq<Trade>)
    ensures |r| == |txs|
    ensures forall i :: 0 <= i < |txs| ==> r[i] == ConvertTransaction(market, txs[i])
  {
    seq(|txs|, i requires 0 <= i < |txs| => ConvertTransaction(market, txs[i]))
  }

  /** `_get_trades`: the market's trades followed by its converted base-currency
      transactions, stably sorted by time. */
  function GetTrades(market: MarketPair, exchange: ExchangeHistory): (r: seq<Trade>)
    ensures SortedByTime(r)
    ensures multiset(r) == multiset(MarketTrades(market, exchange.trades)
                                    + ConvertAll(market, BaseTransactions(market, exchange.transactions)))
    ensures forall k :: WithTime(r, k) == WithTime(MarketTrades(market, exchange.trades), k)
                                          + WithTime(ConvertAll(market, BaseTransactions(market, exchange.transactions)), k)
  {
    var trades := MarketTrades(market, exchange.trades);
    var txTrades := ConvertAll(market, BaseTransactions(market, exchange.transactions));
    assert forall k :: WithTime(trades + txTrades, k) == WithTime(trades, k) + WithTime(txTrades, k) by {
      forall k ensures WithTime(trades + txTrades, k) == WithTime(trades, k) + WithTime(txTrades, k) {
        WithTimeAppend(trades, txTrades, k);
      }
    }
    SortByTime(trades + txTrades)
  }

  /** Every event of `_get_trades` is a trade of the market or the conversion
      of a transaction in its base currency, and every such one is there. */
  lemma GetTradesMembers(market: MarketPair, exchange: ExchangeHistory, e: Trade)
    ensures e in GetTrades(market, exchange) <==>
      (e in exchange.trades && e.base == market.base && e.counter == market.counter)
      || (exists tx :: tx in exchange.transactions && tx.currency == market.base
                       && e == ConvertTransaction(market, tx))
  {
    var trades := MarketTrades(market, exchange.trades);
    var txs := BaseTransactions(market, exchange.transactions);
    var txTrades := ConvertAll(market, txs);
    var r := GetTrades(market, exchange);
    assert e in r <==> e in multiset(r);
    assert e in trades + txTrades <==> e in multiset(trades + txTrades);
    if e in txTrades {
      var i :| 0 <= i < |txTrades| && txTrades[i] == e;
      assert txs[i] in txs;
    }
    if exists tx :: tx in exchange.transactions && tx.currency == market.base
                    && e == ConvertTransaction(market, tx) {
      var tx :| tx in exchange.transactions && tx.currency == market.base
                && e == ConvertTransaction(market, tx);
      var i :| 0 <= i < |txs| && txs[i] == tx;
      assert txTrades[i] == e;
    }
  }

  /** An input already in time order is returned as it is. */
  lemma SortedInputIsKept(s: seq<Trade>)
    requires SortedByTime(s)
    ensures SortByTime(s) == s
  {
    StableSortIsUnique(SortByTime(s), s);
  }

  // ---------------------------------------------------------------------
  // The lot reduction (merge_trades folded over the events)

  /** The state when the pop loop of a Sell stops: the lots left on the
      stack, the popped total and the last popped lot (`oldest_buy`). */
  datatype Popped = Popped(rest: seq<Trade>, total: real, last: Option<Trade>)

  /** The pop loop of a Sell: while the popped total is below the amount, pop
      the top lot, add its amount and remember it as `oldest_buy`. */
  function PopUntil(lots: seq<Trade>, amount: real, total: real, last: Option<Trade>): (r: Result<Popped, PLError>)
    ensures r.Err? ==> r.error == PopFromEmptyList
    ensures r.Ok? ==> r.value.rest <= lots && r.value.total >= amount
    ensures r.Ok? && r.value.rest == lots ==> r.value.last == last && r.value.total == total
    ensures r.Ok? && |r.value.rest| < |lots| ==> r.value.last == Some(lots[|r.value.rest|])
    decreases |lots|
  {
    if total >= amount then Ok(Popped(lots, total, last))
    else if lots == [] then Err(PopFromEmptyList)
    else PopUntil(lots[..|lots| - 1], amount, total + lots[|lots| - 1].amount, Some(lots[|lots| - 1]))
  }

  /** `merge_trades(acc, trade)` */
  function MergeTrade(market: MarketPair, acc: seq<Trade>, trade: Trade): (r: Result<seq<Trade>, PLError>)
    ensures r.Err? ==> trade.side.Sell?
    ensures r.Ok? ==> |r.value| <= |acc| + 1
    ensures r.Ok? && trade.side == Sell ==> |r.value| <= |acc|
    ensures r.Ok? && |r.value| > 0 ==> r.value[..|r.value| - 1] <= acc
  {
    if trade.side == Buy then Ok(acc + [LotOf(market, trade.time, trade.amount, trade.price)])
    else
      match PopUntil(acc, trade.amount, 0.0, None)
      case Err(e) => Err(e)
      case Ok(p) =>
        var buyAmount := trade.amount - p.total;
        if buyAmount == 0.0 then
          assert |p.rest| > 0 ==> p.rest[..|p.rest| - 1] == acc[..|p.rest| - 1];
          Ok(p.rest)
        else if p.last.None? then Err(NoLotToPushBack)
        else Ok(p.rest + [LotOf(market, p.last.value.time, buyAmount, p.last.value.price)])
  }

  /** `reduce(merge_trades, events, [])`: a left fold from the empty stack;
      the first error ends it. */
  function ReduceLots(market: MarketPair, events: seq<Trade>): (r: Result<seq<Trade>, PLError>)
    ensures r.Ok? ==> |r.value| <= |events|
    decreases |events|
  {
    if events == [] then Ok([])
    else
      match ReduceLots(market, events[..|events| - 1])
      case Err(e) => Err(e)
      case Ok(acc) => MergeTrade(market, acc, events[|events| - 1])
  }

  /** `unrealized_pl(market)` */
  function UnrealizedPlOf(market: MarketPair, exchange: ExchangeHistory): (r: Result<seq<Trade>, PLError>)
    ensures r.Ok? ==> AllLotsOf(market, r.value)
    ensures r.Ok? ==> |r.value| <= |GetTrades(market, exchange)|
  {
    var events := GetTrades(market, exchange);
    var r := ReduceLots(market, events);
    if r.Ok? then ReduceLotsGivesLots(market, events); r else r
  }

  /** The total amount of the top `k` lots, the most recently pushed first. */
  function SumLast(lots: seq<Trade>, k: nat): real
    requires k <= |lots|
    decreases k
  {
    if k == 0 then 0.0 else lots[|lots| - 1].amount + SumLast(lots[..|lots| - 1], k - 1)
  }

  function Sum(lots: seq<Trade>): real
  {
    SumLast(lots, |lots|)
  }

  lemma {:induction false} SumSplit(lots: seq<Trade>, k: nat)
    requires k <= |lots|
    ensures Sum(lots) == Sum(lots[..|lots| - k]) + SumLast(lots, k)
    decreases k
  {
    if k > 0 {
      var lots' := lots[..|lots| - 1];
      SumSplit(lots', k - 1);
      assert lots'[..|lots'| - (k - 1)] == lots[..|lots| - k];
    } else {
      assert lots[..|lots|] == lots;
    }
  }

  lemma SumPush(lots: seq<Trade>, x: Trade)
    ensures Sum(lots + [x]) == Sum(lots) + x.amount
  {
    assert (lots + [x])[..|lots|] == lots;
  }

  /** The pop loop stops at the first `k` whose top-`k` total reaches the amount,
      leaving the lots below untouched. */
  lemma {:induction false} PopUntilStops(lots: seq<Trade>, amount: real, total: real, last: Option<Trade>, k: nat)
    requires k <= |lots|
    requires total + SumLast(lots, k) >= amount
    requires forall j :: 0 <= j < k ==> total + SumLast(lots, j) < amount
    ensures PopUntil(lots, amount, total, last)
      == Ok(Popped(lots[..|lots| - k], total + SumLast(lots, k), if k == 0 then last else Some(lots[|lots| - k])))
    decreases k
  {
    if k == 0 {
      assert lots[..|lots|] == lots;
    } else {
      assert total + SumLast(lots, 0) < amount;
      var lots', x := lots[..|lots| - 1], lots[|lots| - 1];
      forall j | 0 <= j < k - 1 ensures total + x.amount + SumLast(lots', j) < amount {
        assert SumLast(lots, j + 1) == x.amount + SumLast(lots', j);
      }
      PopUntilStops(lots', amount, total + x.amount, Some(x), k - 1);
      assert lots'[..|lots'| - (k - 1)] == lots[..|lots| - k];
      if k > 1 {
        assert lots'[|lots'| - (k - 1)] == lots[|lots| - k];
      }
    }
  }

  /** Some top of the stack, taken on top of `total`, reaches `amount`. */
  predicate Reaches(lots: seq<Trade>, amount: real, total: real)
  {
    exists j :: 0 <= j <= |lots| && total + SumLast(lots, j) >= amount
  }

  /** The pop loop underflows exactly when no top of the stack reaches the amount. */
  lemma {:induction false} PopUntilUnderflow(lots: seq<Trade>, amount: real, total: real, last: Option<Trade>)
    ensures PopUntil(lots, amount, total, last).Err? <==> !Reaches(lots, amount, total)
    ensures PopUntil(lots, amount, total, last).Err? ==> PopUntil(lots, amount, total, last).error == PopFromEmptyList
    decreases |lots|
  {
    if total >= amount {
      assert total + SumLast(lots, 0) >= amount;
    } else if lots != [] {
      var lots', x := lots[..|lots| - 1], lots[|lots| - 1];
      PopUntilUnderflow(lots', amount, total + x.amount, Some(x));
      if Reaches(lots', amount, total + x.amount) {
        var j :| 0 <= j <= |lots'| && total + x.amount + SumLast(lots', j) >= amount;
        assert total + SumLast(lots, j + 1) >= amount;
      }
      if Reaches(lots, amount, total) {
        var j :| 0 <= j <= |lots| && total + SumLast(lots, j) >= amount;
        assert j > 0;
        assert total + x.amount + SumLast(lots', j - 1) >= amount;
      }
    }
  }

  /** What a Sell does to the stack, given the first `k` whose top-`k` total
      reaches the sell amount: the `k` top lots are gone, nothing below them
      changes, and at most one lot is pushed back, carrying the last popped
      lot's time and price and the amount `sell - popped`, which is never
      positive. Its balance is `Sum(before) + sell - 2 * popped`, which is
      `Sum(before) - sell` only when the popped total equals the sell. */
  lemma SellOutcome(market: MarketPair, acc: seq<Trade>, sell: Trade, k: nat)
    requires sell.side == Sell && k <= |acc|
    requires SumLast(acc, k) >= sell.amount
    requires forall j :: 0 <= j < k ==> SumLast(acc, j) < sell.amount
    ensures var popped, below := SumLast(acc, k), acc[..|acc| - k];
      && (popped == sell.amount ==> MergeTrade(market, acc, sell) == Ok(below))
      && (popped != sell.amount && k > 0 ==>
            sell.amount - popped < 0.0
            && MergeTrade(market, acc, sell)
               == Ok(below + [LotOf(market, acc[|acc| - k].time, sell.amount - popped, acc[|acc| - k].price)]))
      && (popped != sell.amount && k == 0 ==> sell.amount < 0.0 && MergeTrade(market, acc, sell) == Err(NoLotToPushBack))
      && (MergeTrade(market, acc, sell).Ok? ==>
            Sum(MergeTrade(market, acc, sell).value) == Sum(acc) + sell.amount - 2.0 * popped)
  {
    forall j | 0 <= j < k ensures 0.0 + SumLast(acc, j) < sell.amount {
    }
    PopUntilStops(acc, sell.amount, 0.0, None, k);
    var popped, below := SumLast(acc, k), acc[..|acc| - k];
    SumSplit(acc, k);
    if k > 0 {
      assert SumLast(acc, k - 1) < sell.amount;
      SumPush(below, LotOf(market, acc[|acc| - k].time, sell.amount - popped, acc[|acc| - k].price));
    }
  }

  /** A Sell fails exactly when it asks for more than any top of the stack
      holds (IndexError), or when its amount is negative (nothing is popped
      and `oldest_buy` is None); a Buy never fails. */
  lemma MergeTradeFails(market: MarketPair, acc: seq<Trade>, trade: Trade)
    ensures MergeTrade(market, acc, trade) == Err(PopFromEmptyList)
      <==> trade.side == Sell && !Reaches(acc, trade.amount, 0.0)
    ensures MergeTrade(market, acc, trade) == Err(NoLotToPushBack)
      <==> trade.side == Sell && trade.amount < 0.0
    ensures MergeTrade(market, acc, trade).Err? ==>
      MergeTrade(market, acc, trade) == Err(PopFromEmptyList) || MergeTrade(market, acc, trade) == Err(NoLotToPushBack)
  {
    if trade.side == Sell {
      PopUntilUnderflow(acc, trade.amount, 0.0, None);
      if trade.amount > 0.0 {
        var p := PopUntil(acc, trade.amount, 0.0, None);
        if p.Ok? {
          PopUntilPops(acc, trade.amount, 0.0, None);
        }
      } else {
        assert 0.0 + SumLast(acc, 0) >= trade.amount;
      }
    }
  }

  /** A pop loop that has not yet reached the amount pops at least one lot,
      and the lots it leaves are a prefix of the stack. */
  lemma {:induction false} PopUntilPops(lots: seq<Trade>, amount: real, total: real, last: Option<Trade>)
    requires PopUntil(lots, amount, total, last).Ok?
    ensures var p := PopUntil(lots, amount, total, last).value;
      && p.rest <= lots
      && (total < amount ==> p.last.Some? && p.last.value in lots && p.total >= amount)
      && (total >= amount ==> p == Popped(lots, total, last))
    decreases |lots|
  {
    if total < amount {
      var lots', x := lots[..|lots| - 1], lots[|lots| - 1];
      PopUntilPops(lots', amount, total + x.amount, Some(x));
      var p := PopUntil(lots', amount, total + x.amount, Some(x)).value;
      assert p.rest <= lots' <= lots;
      if p.last.Some? && p.last.value in lots' {
        assert lots' <= lots;
      }
    }
  }

  /** merge_trades keeps the stack a list of lots of the market. */
  lemma MergeTradeKeepsLots(market: MarketPair, acc: seq<Trade>, trade: Trade)
    requires AllLotsOf(market, acc)
    requires MergeTrade(market, acc, trade).Ok?
    ensures AllLotsOf(market, MergeTrade(market, acc, trade).value)
  {
    if trade.side == Sell {
      PopUntilPops(acc, trade.amount, 0.0, None);
      var p := PopUntil(acc, trade.amount, 0.0, None).value;
      assert forall i :: 0 <= i < |p.rest| ==> p.rest[i] == acc[i];
    }
  }

  /** Every lot of a successful reduction carries no ids and the market's
      currencies. */
  lemma {:induction false} ReduceLotsGivesLots(market: MarketPair, events: seq<Trade>)
    requires ReduceLots(market, events).Ok?
    ensures AllLotsOf(market, ReduceLots(market, events).value)
    decreases |events|
  {
    if events != [] {
      var prefix := events[..|events| - 1];
      ReduceLotsGivesLots(market, prefix);
      MergeTradeKeepsLots(market, ReduceLots(market, prefix).value, events[|events| - 1]);
    }
  }

  /** Once an event fails, the reduction fails with that error whatever follows. */
  lemma {:induction false} ReduceLotsErrorSticks(market: MarketPair, events: seq<Trade>, more: seq<Trade>)
    requires ReduceLots(market, events).Err?
    ensures ReduceLots(market, events + more) == ReduceLots(market, events)
    decreases |more|
  {
    if more == [] {
      assert events + more == events;
    } else {
      var more' := more[..|more| - 1];
      ReduceLotsErrorSticks(market, events, more');
      assert (events + more)[..|events + more| - 1] == events + more';
    }
  }

  /** A sequence of Buys leaves one lot per Buy, in order. */
  lemma {:induction false} BuysArePushedInOrder(market: MarketPair, events: seq<Trade>)
    requires forall i :: 0 <= i < |events| ==> events[i].side == Buy
    ensures ReduceLots(market, events).Ok?
    ensures |ReduceLots(market, events).value| == |events|
    ensures forall i :: 0 <= i < |events| ==>
      ReduceLots(market, events).value[i] == LotOf(market, events[i].time, events[i].amount, events[i].price)
    decreases |events|
  {
    if events != [] {
      var n := |events| - 1;
      var prefix := events[..n];
      BuysArePushedInOrder(market, prefix);
      var acc := ReduceLots(market, prefix).value;
      ReduceLotsStep(market, events, n, acc);
      assert events[..n + 1] == events;
      MergeTradeBuy(market, acc, events[n]);
      var r := acc + [LotOf(market, events[n].time, events[n].amount, events[n].price)];
      assert ReduceLots(market, events) == Ok(r);
      forall i | 0 <= i < n
        ensures r[i] == LotOf(market, events[i].time, events[i].amount, events[i].price)
      {
        assert prefix[i] == events[i];
      }
    }
  }

  /** A Buy on any stack pushes one lot with its time, amount and price on
      top and leaves every lot below it as it was. */
  lemma MergeTradeBuy(market: MarketPair, acc: seq<Trade>, t: Trade)
    requires t.side == Buy
    ensures MergeTrade(market, acc, t) == Ok(acc + [LotOf(market, t.time, t.amount, t.price)])
  {
  }

  /** For the stack, a Deposit is a zero-price Buy and any other transaction a
      zero-price Sell: only side, time, amount and price matter. */
  lemma MergeTradeSeesSideTimeAmountPrice(market: MarketPair, acc: seq<Trade>, t: Trade, u: Trade)
    requires t.side == u.side && t.time == u.time && t.amount == u.amount && t.price == u.price
    ensures MergeTrade(market, acc, t) == MergeTrade(market, acc, u)
  {
  }

  /** Buy 10 at 1, Buy 5 at 2, Sell 12: the Sell pops the 5 and then the 10,
      and pushes back 12 - 15 = -3 at the first buy's time and price. */
  lemma NegatedLeftover(market: MarketPair)
    ensures ReduceLots(market, [
        Trade(None, Buy, market.base, market.counter, 0, None, 10.0, 1.0, None, None),
        Trade(None, Buy, market.base, market.counter, 1, None, 5.0, 2.0, None, None),
        Trade(None, Sell, market.base, market.counter, 2, None, 12.0, 3.0, None, None)])
      == Ok([LotOf(market, 0, -3.0, 1.0)])
  {
    var b1 := Trade(None, Buy, market.base, market.counter, 0, None, 10.0, 1.0, None, None);
    var b2 := Trade(None, Buy, market.base, market.counter, 1, None, 5.0, 2.0, None, None);
    var s := Trade(None, Sell, market.base, market.counter, 2, None, 12.0, 3.0, None, None);
    var events := [b1, b2, s];
    var acc := [LotOf(market, 0, 10.0, 1.0), LotOf(market, 1, 5.0, 2.0)];
    assert events[..2] == [b1, b2];
    BuysArePushedInOrder(market, [b1, b2]);
    assert ReduceLots(market, [b1, b2]).value == acc;
    assert ReduceLots(market, events) == MergeTrade(market, acc, s);
    assert SumLast(acc, 1) == 5.0;
    assert SumLast(acc, 2) == 15.0;
    SellOutcome(market, acc, s, 2);
  }

  // ---------------------------------------------------------------------
  // The imperative code

  /** merge_trades with its pop loop. */
  method MergeTrades(market: MarketPair, acc: seq<Trade>, trade: Trade) returns (r: Result<seq<Trade>, PLError>)
    ensures r == MergeTrade(market, acc, trade)
  {
    if trade.side == Buy {
      var newTrade := LotOf(market, trade.time, trade.amount, trade.price);
      return Ok(acc + [newTrade]);
    }
    var lots := acc;
    var oldestBuy: Option<Trade> := None;
    var totalAmount := 0.0;
    while totalAmount < trade.amount
      invariant PopUntil(lots, trade.amount, totalAmount, oldestBuy) == PopUntil(acc, trade.amount, 0.0, None)
      decreases |lots|
    {
      if lots == [] {
        return Err(PopFromEmptyList);
      }
      oldestBuy := Some(lots[|lots| - 1]);
      lots := lots[..|lots| - 1];
      totalAmount := totalAmount + oldestBuy.value.amount;
    }
    var buyAmount := trade.amount - totalAmount;
    if buyAmount != 0.0 {
      if oldestBuy == None {
        return Err(NoLotToPushBack);
      }
      var newTrade := LotOf(market, oldestBuy.value.time, buyAmount, oldestBuy.value.price);
      lots := lots + [newTrade];
    }
    return Ok(lots);
  }

  /** One more event of the fold is one more merge_trades step. */
  lemma ReduceLotsStep(market: MarketPair, events: seq<Trade>, i: nat, acc: seq<Trade>)
    requires i < |events| && ReduceLots(market, events[..i]) == Ok(acc)
    ensures ReduceLots(market, events[..i + 1]) == MergeTrade(market, acc, events[i])
  {
    assert events[..i + 1][..i] == events[..i];
  }

  /** unrealized_pl: collect the market's events and fold merge_trades over them. */
  method UnrealizedPl(market: MarketPair, exchange: ExchangeHistory) returns (r: Result<seq<Trade>, PLError>)
    ensures r == UnrealizedPlOf(market, exchange)
    ensures r.Ok? ==> AllLotsOf(market, r.value)
  {
    var trades := GetTrades(market, exchange);
    var acc: seq<Trade> := [];
    for i := 0 to |trades|
      invariant ReduceLots(market, trades[..i]) == Ok(acc)
    {
      var next := MergeTrades(market, acc, trades[i]);
      ReduceLotsStep(market, trades, i, acc);
      if next.Err? {
        ReduceLotsErrorSticks(market, trades[..i + 1], trades[i + 1..]);
        assert trades[..i + 1] + trades[i + 1..] == trades;
        return next;
      }
      acc := next.value;
    }
    assert trades[..|trades|] == trades;
    assert UnrealizedPlOf(market, exchange) == ReduceLots(market, trades);
    return Ok(acc);
  }
}
