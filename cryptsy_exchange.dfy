/** The authenticated Cryptsy adapter of cryptex/exchange/cryptsy.py. Cryptsy
    names a market by a market id; the adapter keeps a cached map from id to
    (primary, secondary) currency codes and accepts either an id or a currency
    pair wherever a market is expected. Server answers are parameters. */
module CryptsyExchange {
  import opened Wrappers
  import opened Records
  import opened Lists
  import opened Dicts

  /** One entry of the `getmarkets` answer. */
  datatype MarketRecord = MarketRecord(marketId: string, primary: string, secondary: string)

  type CurrencyMap = map<string, (string, string)>

  /** The dict comprehension of `_get_market_currency_map`. */
  function CurrencyMapOf(records: seq<MarketRecord>): (m: CurrencyMap)
    ensures m.Keys == set i | 0 <= i < |records| :: records[i].marketId
  {
    var entries := MapEntries(records);
    assert (set i | 0 <= i < |entries| :: entries[i].0) == set i | 0 <= i < |records| :: records[i].marketId;
    Collect(entries)
  }

  function MapEntries(records: seq<MarketRecord>): (e: seq<(string, (string, string))>)
    ensures |e| == |records|
    ensures forall i :: 0 <= i < |records| ==>
      e[i] == (records[i].marketId, (records[i].primary, records[i].secondary))
  {
    seq(|records|, i requires 0 <= i < |records| => (records[i].marketId, (records[i].primary, records[i].secondary)))
  }

  /** An id maps to the currencies of the last record with that id, and
      every stored pair is that of a record with the id. */
  lemma CurrencyMapEntries(records: seq<MarketRecord>, i: nat, id: string)
    requires i < |records|
    requires forall j :: i < j < |records| ==> records[j].marketId != records[i].marketId
    ensures var m := CurrencyMapOf(records);
      m[records[i].marketId] == (records[i].primary, records[i].secondary)
    ensures var m := CurrencyMapOf(records);
      id in m ==> exists j :: 0 <= j < |records| && records[j].marketId == id
                              && m[id] == (records[j].primary, records[j].secondary)
  {
    var e := MapEntries(records);
    CollectLastWins(e, i);
    if id in CurrencyMapOf(records) {
      CollectValuesFromEntries(e, id);
      var j :| 0 <= j < |e| && e[j] == (id, Collect(e)[id]);
      assert records[j].marketId == id;
    }
  }

  /** CryptsyException('Market not found') */
  datatype CryptsyError = MarketNotFound

  /** What a caller may pass where a market is expected: a market id or a
      (primary, secondary) pair. */
  datatype MarketRef = Id(id: string) | Pair(primary: string, secondary: string)

  /** `r` is an answer `_get_market_id` can give: an id that is a key comes
      back unchanged; a pair gives some id stored with that pair (the first
      in the dict's order, which the source does not fix); anything else is
      not found. */
  predicate ResolvesTo(m: CurrencyMap, ref: MarketRef, r: Result<string, CryptsyError>)
  {
    match ref
    case Id(id) => r == (if id in m then Ok(id) else Err(MarketNotFound))
    case Pair(a, b) =>
      && (r.Ok? <==> (a, b) in m.Values)
      && (r.Ok? ==> r.value in m && m[r.value] == (a, b))
      && (r.Err? ==> r.error == MarketNotFound)
  }

  /** `_get_market_id` once the map is known. The id is checked first; an id
      that is not a key is then compared against the stored pairs, which it
      never equals. */
  method MarketIdIn(m: CurrencyMap, ref: MarketRef) returns (r: Result<string, CryptsyError>)
    ensures ResolvesTo(m, ref, r)
  {
    if ref.Id? {
      if ref.id in m {
        return Ok(ref.id);
      }
      return Err(MarketNotFound);
    }
    var pair := (ref.primary, ref.secondary);
    if pair !in m.Values {
      return Err(MarketNotFound);
    }
    var id :| id in m && m[id] == pair;
    return Ok(id);
  }

  /** `_get_currencies` once the map is known. */
  function CurrenciesOf(m: CurrencyMap, ref: MarketRef): (r: Result<(string, string), CryptsyError>)
    ensures r.Ok? <==> (ref.Id? && ref.id in m) || (ref.Pair? && (ref.primary, ref.secondary) in m.Values)
    ensures r.Ok? ==> r.value in m.Values
    ensures ref.Pair? && r.Ok? ==> r.value == (ref.primary, ref.secondary)
  {
    match ref
    case Id(id) => if id in m then Ok(m[id]) else Err(MarketNotFound)
    case Pair(a, b) => if (a, b) in m.Values then Ok((a, b)) else Err(MarketNotFound)
  }

  /** `_get_currencies(x) == map[_get_market_id(x)]`, whichever id the
      lookup picks; both fail together. */
  lemma CurrenciesOfResolvedId(m: CurrencyMap, ref: MarketRef, r: Result<string, CryptsyError>)
    requires ResolvesTo(m, ref, r)
    ensures r.Ok? <==> CurrenciesOf(m, ref).Ok?
    ensures r.Ok? ==> r.value in m && CurrenciesOf(m, ref).value == m[r.value]
  {
  }

  /** One entry of the `mytrades` / `allmytrades` answer. */
  datatype CryptsyTrade = CryptsyTrade(tradeId: string, tradeType: string, marketId: string, datetime: int,
                                       orderId: string, quantity: real, tradePrice: real, fee: real)

  /** `_format_trade` once the map is known. */
  function FormatTradeWith(m: CurrencyMap, t: CryptsyTrade): (r: Result<Trade, CryptsyError>)
    ensures r.Err? <==> t.marketId !in m
    ensures r.Ok? ==> (r.value.base, r.value.counter) == m[t.marketId]
    ensures r.Ok? ==> r.value.feeCurrency == Some(r.value.counter) && r.value.fee == Some(t.fee)
    ensures r.Ok? ==> (r.value.side == Buy <==> t.tradeType == "Buy")
    ensures r.Ok? ==> r.value.tradeId == Some(t.tradeId) && r.value.orderId == Some(t.orderId)
    ensures r.Ok? ==> r.value.time == t.datetime && r.value.amount == t.quantity && r.value.price == t.tradePrice
  {
    var side := if t.tradeType == "Buy" then Buy else Sell;
    match CurrenciesOf(m, Id(t.marketId))
    case Err(e) => Err(e)
    case Ok((base, counter)) =>
      Ok(Trade(Some(t.tradeId), side, base, counter, t.datetime, Some(t.orderId),
               t.quantity, t.tradePrice, Some(t.fee), Some(counter)))
  }

  /** Every trade of an answer formatted in order; the first trade whose market
      is unknown raises. */
  function FormatAll(m: CurrencyMap, trades: seq<CryptsyTrade>): (r: Result<seq<Trade>, CryptsyError>)
    ensures r.Ok? <==> forall i :: 0 <= i < |trades| ==> trades[i].marketId in m
    ensures r.Ok? ==> |r.value| == |trades|
    ensures r.Ok? ==> forall i :: 0 <= i < |trades| ==> FormatTradeWith(m, trades[i]) == Ok(r.value[i])
    decreases |trades|
  {
    if trades == [] then Ok([])
    else
      match FormatTradeWith(m, trades[0])
      case Err(e) => Err(e)
      case Ok(t) =>
        match FormatAll(m, trades[1..])
        case Err(e) => Err(e)
        case Ok(rest) =>
          assert forall i :: 1 <= i < |trades| ==> trades[i] == trades[1..][i - 1];
          Ok([t] + rest)
  }

  /** The indexed loop of `get_my_trades` that writes the market id into every
      trade of a `mytrades` answer, in place. */
  method TagTrades(trades: seq<CryptsyTrade>, id: string) returns (tagged: seq<CryptsyTrade>)
    ensures |tagged| == |trades|
    ensures forall i :: 0 <= i < |trades| ==> tagged[i] == trades[i].(marketId := id)
  {
    var a := new CryptsyTrade[|trades|](i requires 0 <= i < |trades| => trades[i]);
    for index := 0 to a.Length
      invariant forall i :: 0 <= i < index ==> a[i] == trades[i].(marketId := id)
      invariant forall i :: index <= i < a.Length ==> a[i] == trades[i]
    {
      a[index] := a[index].(marketId := id);
    }
    tagged := a[..];
  }

  /** One entry of the `mytransactions` answer. */
  datatype CryptsyTx = CryptsyTx(trxId: string, txType: string, datetime: int, currency: string,
                                 amount: real, address: string, fee: real)

  /** The classification in the loop of `get_my_transactions`: CryptsyPoints
      deposits are not real deposits and stay unclassified. */
  function ClassifyTx(t: CryptsyTx): (r: Option<Transaction>)
    ensures r.Some? <==> t.txType == "Withdrawal" || t.txType == "Deposit"
    ensures r.Some? ==> r.value == Transaction(r.value.kind, t.trxId, t.datetime, t.currency, t.amount,
                                               t.address, Some(t.fee))
    ensures r.Some? ==> (r.value.kind == Withdrawal <==> t.txType == "Withdrawal")
    ensures r.Some? ==> (r.value.kind == Unclassified <==> t.txType == "Deposit" && t.currency == "Points")
  {
    var kind :=
      if t.txType == "Withdrawal" then Some(Withdrawal)
      else if t.txType == "Deposit" then (if t.currency == "Points" then Some(Unclassified) else Some(Deposit))
      else None;
    if kind.None? then None
    else Some(Transaction(kind.value, t.trxId, t.datetime, t.currency, t.amount, t.address, Some(t.fee)))
  }

  /** `Cryptsy.get_my_transactions` */
  method GetMyTransactions(answer: seq<CryptsyTx>) returns (txs: seq<Transaction>)
    ensures txs == FilterMap(answer, ClassifyTx)
  {
    txs := [];
    for i := 0 to |answer|
      invariant txs == FilterMap(answer[..i], ClassifyTx)
    {
      assert answer[..i + 1][..i] == answer[..i];
      var t := answer[i];
      var kind: Option<TxKind> := None;
      if t.txType == "Withdrawal" {
        kind := Some(Withdrawal);
      } else if t.txType == "Deposit" {
        if t.currency == "Points" {
          kind := Some(Unclassified);
        } else {
          kind := Some(Deposit);
        }
      }
      if kind.Some? {
        txs := txs + [Transaction(kind.value, t.trxId, t.datetime, t.currency, t.amount, t.address, Some(t.fee))];
      }
    }
    assert answer[..|answer|] == answer;
  }

  /** A reported deposit is never in Points, every reported transaction
      comes from a withdrawal or deposit entry with its id and amount, and
      every such entry is reported. */
  lemma TransactionsAreClassified(answer: seq<CryptsyTx>, x: Transaction)
    ensures x in FilterMap(answer, ClassifyTx) ==> (x.kind == Deposit ==> x.currency != "Points")
    ensures x in FilterMap(answer, ClassifyTx) <==>
      exists i :: 0 <= i < |answer| && ClassifyTx(answer[i]) == Some(x)
  {
    FilterMapMembers(answer, ClassifyTx, x);
  }

  /** The Cryptsy adapter's state: the `getmarkets` answer it would receive
      and the cached id-to-currencies map. */
  class Cryptsy {
    /** The `getmarkets` answer. */
    const markets: seq<MarketRecord>
    var marketCurrencyMap: Option<CurrencyMap>
    /** How many `getmarkets` requests were made. */
    ghost var marketRequests: nat

    ghost predicate Valid()
      reads this
    {
      && (marketCurrencyMap.Some? ==> marketCurrencyMap.value == CurrencyMapOf(markets) && marketRequests == 1)
      && (marketCurrencyMap.None? ==> marketRequests == 0)
    }

    constructor(markets: seq<MarketRecord>)
      ensures Valid() && this.markets == markets && marketCurrencyMap.None?
    {
      this.markets := markets;
      marketCurrencyMap := None;
      marketRequests := 0;
    }

    /** `_get_market_currency_map`: the map is requested and built on the
        first call and served from the field afterwards. */
    method GetMarketCurrencyMap() returns (m: CurrencyMap)
      requires Valid()
      modifies this
      ensures Valid()
      ensures m == CurrencyMapOf(markets) && marketCurrencyMap == Some(m)
      ensures marketRequests == 1
      ensures old(marketCurrencyMap).Some? ==> unchanged(this)
    {
      if marketCurrencyMap.None? {
        marketCurrencyMap := Some(CurrencyMapOf(markets));
        marketRequests := marketRequests + 1;
      }
      m := marketCurrencyMap.value;
    }

    /** `_get_market_id` */
    method GetMarketId(ref: MarketRef) returns (r: Result<string, CryptsyError>)
      requires Valid()
      modifies this
      ensures Valid() && marketCurrencyMap == Some(CurrencyMapOf(markets)) && marketRequests == 1
      ensures ResolvesTo(CurrencyMapOf(markets), ref, r)
    {
      var m := GetMarketCurrencyMap();
      r := MarketIdIn(m, ref);
    }

    /** `_get_currencies` */
    method GetCurrencies(ref: MarketRef) returns (r: Result<(string, string), CryptsyError>)
      requires Valid()
      modifies this
      ensures Valid() && marketCurrencyMap == Some(CurrencyMapOf(markets)) && marketRequests == 1
      ensures r == CurrenciesOf(CurrencyMapOf(markets), ref)
    {
      var id := GetMarketId(ref);
      if id.Err? {
        return Err(id.error);
      }
      var m := GetMarketCurrencyMap();
      CurrenciesOfResolvedId(m, ref, id);
      return Ok(m[id.value]);
    }

    /** `get_my_trades`, given the `allmytrades` answer and the `mytrades`
        answer for each market id. With a known market, every trade of the
        `mytrades` answer for its resolved id is tagged with that id and
        formatted, so it is booked on that market's currencies. The market
        map is read only to format a trade or to resolve a market, so an
        empty `allmytrades` answer makes no `getmarkets` request. */
    method GetMyTrades(market: Option<MarketRef>, allMyTrades: seq<CryptsyTrade>,
                       myTrades: string -> seq<CryptsyTrade>)
      returns (r: Result<seq<Trade>, CryptsyError>)
      requires Valid()
      modifies this
      ensures Valid()
      ensures market.Some? || allMyTrades != [] ==> marketCurrencyMap == Some(CurrencyMapOf(markets))
      ensures market.None? && allMyTrades == [] ==> r == Ok([]) && unchanged(this)
      ensures market.None? ==> r == FormatAll(CurrencyMapOf(markets), allMyTrades)
      ensures market.Some? && r.Ok? ==>
        CurrenciesOf(CurrencyMapOf(markets), market.value).Ok? &&
        forall i :: 0 <= i < |r.value| ==>
          (r.value[i].base, r.value[i].counter) == CurrenciesOf(CurrencyMapOf(markets), market.value).value
      ensures market.Some? && CurrenciesOf(CurrencyMapOf(markets), market.value).Err? ==> r == Err(MarketNotFound)
      ensures market.Some? && CurrenciesOf(CurrencyMapOf(markets), market.value).Ok? ==>
        r.Ok? &&
        exists id :: ResolvesTo(CurrencyMapOf(markets), market.value, Ok(id))
          && |r.value| == |myTrades(id)|
          && forall i :: 0 <= i < |r.value| ==>
               Ok(r.value[i]) == FormatTradeWith(CurrencyMapOf(markets), myTrades(id)[i].(marketId := id))
    {
      var trades := allMyTrades;
      if market.Some? {
        var id := GetMarketId(market.value);
        if id.Err? {
          return Err(id.error);
        }
        trades := TagTrades(myTrades(id.value), id.value);
        CurrenciesOfResolvedId(CurrencyMapOf(markets), market.value, id);
        var m := GetMarketCurrencyMap();
        r := FormatAll(m, trades);
        assert ResolvesTo(m, market.value, Ok(id.value));
        return;
      }
      if trades == [] {
        return Ok([]);
      }
      var m := GetMarketCurrencyMap();
      r := FormatAll(m, trades);
    }
  }
}
