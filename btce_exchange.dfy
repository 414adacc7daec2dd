/** The authenticated BTC-e adapter of cryptex/exchange/btce.py and the pair
    conversions it shares with the public client: BTC-e names a market by a
    lower-case pair string such as "btc_usd", cryptex by a tuple of upper-case
    codes such as ("BTC", "USD"). Server answers are parameters: a JSON object
    is a map, or a sequence of (key, value) entries in its iteration order. */
module BtceExchange {
  import opened Wrappers
  import opened Records
  import opened Text
  import opened Lists
  import opened Dicts

  /** `BTCEBase._pair_to_market`: split on '_' and uppercase every piece. The
      pieces hold no '_' and, joined back with '_', give the uppercased pair,
      which fixes them (see Text.SplitOfJoin). */
  function PairToMarket(pair: string): (m: Market)
    ensures |m| >= 1
    ensures forall i :: 0 <= i < |m| ==> '_' !in m[i] && HasNoLowerLetter(m[i])
    ensures Join(m, '_') == Upper(pair)
  {
    PairPiecesUppercased(pair);
    UpperAll(Split(pair, '_'))
  }

  lemma PairPiecesUppercased(pair: string)
    ensures var m := UpperAll(Split(pair, '_'));
      && (forall i :: 0 <= i < |m| ==> '_' !in m[i] && HasNoLowerLetter(m[i]))
      && Join(m, '_') == Upper(pair)
  {
    var parts := Split(pair, '_');
    SplitPiecesHaveNoSeparator(pair, '_');
    JoinOfSplit(pair, '_');
    UpperOfJoin(parts, '_');
    forall i | 0 <= i < |parts|
      ensures '_' !in Upper(parts[i]) && HasNoLowerLetter(Upper(parts[i]))
    {
      CaseKeepsSeparator(parts[i], '_');
      UpperIdempotent(parts[i]);
    }
  }

  /** `BTCEBase._market_to_pair`: both codes lowercased and joined by one '_'.
      Only the first two components are read; a shorter tuple raises
      IndexError in the source. */
  function MarketToPair(m: Market): (p: string)
    requires |m| >= 2
    ensures HasNoUpperLetter(p) && '_' in p
    ensures '_' !in m[0] && '_' !in m[1] ==> Split(p, '_') == [Lower(m[0]), Lower(m[1])]
  {
    LoweredPairSplits(m[0], m[1]);
    Lower(m[0]) + ['_'] + Lower(m[1])
  }

  lemma LoweredPairSplits(a: string, b: string)
    ensures var p := Lower(a) + ['_'] + Lower(b);
      HasNoUpperLetter(p) && '_' in p
      && ('_' !in a && '_' !in b ==> Split(p, '_') == [Lower(a), Lower(b)])
  {
    var la, lb := Lower(a), Lower(b);
    LowerIdempotent(a);
    LowerIdempotent(b);
    assert (la + ['_'] + lb)[|la|] == '_';
    if '_' !in a && '_' !in b {
      CaseKeepsSeparator(a, '_');
      CaseKeepsSeparator(b, '_');
      SplitOfJoin([la, lb], '_');
      assert Join([la, lb], '_') == la + ['_'] + lb;
    }
  }

  /** A market of two upper-case codes without '_' survives the trip to a
      pair string and back. */
  lemma MarketRoundTrip(m: Market)
    requires |m| == 2
    requires forall i :: 0 <= i < 2 ==> '_' !in m[i] && HasNoLowerLetter(m[i])
    ensures PairToMarket(MarketToPair(m)) == m
  {
    UpperOfLower(m[0]);
    UpperOfLower(m[1]);
  }

  /** A lower-case pair with exactly one '_' survives the trip to a market
      and back. */
  lemma PairRoundTrip(a: string, b: string)
    requires '_' !in a && '_' !in b
    requires HasNoUpperLetter(a) && HasNoUpperLetter(b)
    ensures var p := a + ['_'] + b;
      |PairToMarket(p)| == 2 && MarketToPair(PairToMarket(p)) == p
  {
    var p := a + ['_'] + b;
    SplitOfJoin([a, b], '_');
    assert Join([a, b], '_') == p;
    LowerOfUpper(a);
    LowerOfUpper(b);
  }

  /** Every pair string of a list converted to a market, in order. */
  function PairsToMarkets(pairs: seq<string>): (ms: seq<Market>)
    ensures |ms| == |pairs|
    ensures forall i :: 0 <= i < |pairs| ==> ms[i] == PairToMarket(pairs[i])
  {
    seq(|pairs|, i requires 0 <= i < |pairs| => PairToMarket(pairs[i]))
  }

  /** A pair string holding '_' gives a market with at least two codes. */
  lemma PairWithSeparatorHasTwoCodes(pair: string)
    requires '_' in pair
    ensures |PairToMarket(pair)| >= 2
  {
    var m := PairToMarket(pair);
    if |m| == 1 {
      CaseKeepsSeparator(pair, '_');
      assert false;
    }
  }

  /** The parameter error of `_get_market_info`: ValueError('Maximum limit is 2000'). */
  datatype RequestError = LimitTooLarge

  const MaxLimit: int := 2000

  /** Query parameters; the only values sent are integers. */
  type Params = map<string, int>

  /** `limit` is sent exactly when it is non-zero, `ignore_invalid=1` exactly
      when asked for, and nothing else is sent. */
  predicate ParamsFor(params: Params, limit: int, ignoreInvalid: bool)
  {
    && params.Keys <= {"limit", "ignore_invalid"}
    && ("limit" in params <==> limit != 0)
    && ("limit" in params ==> params["limit"] == limit)
    && ("ignore_invalid" in params <==> ignoreInvalid)
    && ("ignore_invalid" in params ==> params["ignore_invalid"] == 1)
  }

  /** The `params` dict built step by step in `_get_market_info` (and in the
      public client's `perform_request`). */
  method BuildParams(limit: int, ignoreInvalid: bool) returns (r: Result<Params, RequestError>)
    ensures r.Err? <==> limit > MaxLimit
    ensures r.Ok? ==> ParamsFor(r.value, limit, ignoreInvalid)
  {
    var params: Params := map[];
    if limit != 0 {
      if limit > MaxLimit {
        return Err(LimitTooLarge);
      }
      params := params["limit" := limit];
    }
    if ignoreInvalid {
      params := params["ignore_invalid" := 1];
    }
    return Ok(params);
  }

  /** The request path: the method, a '/', and the pair strings joined by '-'. */
  function InfoPath(apiMethod: string, markets: seq<string>): (path: string)
    ensures |path| == |apiMethod| + 1 + |Join(markets, '-')|
    ensures path[..|apiMethod|] == apiMethod && path[|apiMethod|] == '/'
    ensures path[|apiMethod| + 1..] == Join(markets, '-')
  {
    apiMethod + ['/'] + Join(markets, '-')
  }

  /** The path names the method and, after it, exactly the requested pair
      strings, as long as those hold neither '/' nor '-'. */
  lemma InfoPathNamesMarkets(apiMethod: string, markets: seq<string>)
    requires '/' !in apiMethod && |markets| >= 1
    requires forall i :: 0 <= i < |markets| ==> '-' !in markets[i] && '/' !in markets[i]
    ensures Split(InfoPath(apiMethod, markets), '/') == [apiMethod, Join(markets, '-')]
    ensures Split(Join(markets, '-'), '-') == markets
  {
    JoinAvoids(markets, '-', '/');
    SplitOfJoin([apiMethod, Join(markets, '-')], '/');
    SplitOfJoin(markets, '-');
  }

  datatype Request = Request(path: string, params: Params)

  /** `BTCEPublic._get_market_info`, given the object the server answers
      with. The answer is cut down to the requested markets. */
  method GetMarketInfo<V>(apiMethod: string, markets: seq<string>, limit: int, ignoreInvalid: bool,
                          response: map<string, V>)
    returns (r: Result<(Request, map<string, V>), RequestError>)
    ensures r.Err? <==> limit > MaxLimit
    ensures r.Ok? ==> r.value.0.path == InfoPath(apiMethod, markets)
    ensures r.Ok? ==> ParamsFor(r.value.0.params, limit, ignoreInvalid)
    ensures r.Ok? ==> forall x :: x in r.value.1 <==> x in response && x in markets
    ensures r.Ok? ==> forall x :: x in r.value.1 ==> r.value.1[x] == response[x]
  {
    var params := BuildParams(limit, ignoreInvalid);
    if params.Err? {
      return Err(params.error);
    }
    var request := Request(InfoPath(apiMethod, markets), params.value);
    var filtered := map x | x in response.Keys && x in markets :: response[x];
    return Ok((request, filtered));
  }

  /** `BTCEPublic.get_ticker` as written: its `ignore_invalid` argument is
      passed in the position of `limit`, so True is sent as the limit (the
      model's integer 1 stands for it) and `ignore_invalid=1` is sent
      whatever the caller asked. */
  method TickerAsWritten<V>(markets: seq<string>, ignoreInvalid: bool, response: map<string, V>)
    returns (r: Result<(Request, map<string, V>), RequestError>)
    ensures r.Ok?
    ensures "ignore_invalid" in r.value.0.params
    ensures "limit" in r.value.0.params <==> ignoreInvalid
  {
    r := GetMarketInfo("ticker", markets, if ignoreInvalid then 1 else 0, true, response);
  }

  /** `get_ticker` with `ignore_invalid` passed by name: no limit is sent and
      `ignore_invalid=1` is sent exactly when asked for. */
  method Ticker<V>(markets: seq<string>, ignoreInvalid: bool, response: map<string, V>)
    returns (r: Result<(Request, map<string, V>), RequestError>)
    ensures r.Ok?
    ensures "limit" !in r.value.0.params
    ensures "ignore_invalid" in r.value.0.params <==> ignoreInvalid
  {
    r := GetMarketInfo("ticker", markets, 0, ignoreInvalid, response);
  }

  /** One entry of the `TradeHistory` answer. */
  datatype BtceTrade = BtceTrade(tradeType: string, pair: string, timestamp: int,
                                 orderId: string, amount: real, rate: real)

  /** `base, counter = ...` fails (ValueError) unless the pair has two pieces. */
  datatype FormatError = UnpackError

  /** `BTCE._format_trade` */
  function FormatTrade(tradeId: string, t: BtceTrade): (r: Result<Trade, FormatError>)
    ensures r.Err? <==> |PairToMarket(t.pair)| != 2
    ensures r.Ok? ==> [r.value.base, r.value.counter] == PairToMarket(t.pair)
    ensures r.Ok? ==> (r.value.side == Buy <==> t.tradeType == "buy")
    ensures r.Ok? ==> r.value.tradeId == Some(tradeId) && r.value.orderId == Some(t.orderId)
    ensures r.Ok? ==> r.value.time == t.timestamp && r.value.amount == t.amount && r.value.price == t.rate
    ensures r.Ok? ==> r.value.fee.None? && r.value.feeCurrency.None?
  {
    var side := if t.tradeType == "buy" then Buy else Sell;
    var m := PairToMarket(t.pair);
    if |m| != 2 then Err(UnpackError)
    else
      UpperKeepsUpperCase(m[0]);
      UpperKeepsUpperCase(m[1]);
      assert [m[0], m[1]] == m;
      Ok(Trade(Some(tradeId), side, Upper(m[0]), Upper(m[1]), t.timestamp, Some(t.orderId),
               t.amount, t.rate, None, None))
  }

  /** A trade reported for the pair string cryptex sends for a market of two
      upper-case codes is booked on that same market. */
  lemma FormatTradeOfMarket(tradeId: string, t: BtceTrade, m: Market)
    requires |m| == 2
    requires forall i :: 0 <= i < 2 ==> '_' !in m[i] && HasNoLowerLetter(m[i])
    requires t.pair == MarketToPair(m)
    ensures FormatTrade(tradeId, t).Ok?
    ensures FormatTrade(tradeId, t).value.base == m[0] && FormatTrade(tradeId, t).value.counter == m[1]
  {
    MarketRoundTrip(m);
  }

  const AddressMarker: string := "address "

  /** `pat` first occurs in `s` at `i`. */
  predicate FirstOccurrence(s: string, pat: string, i: int)
  {
    OccursAt(s, pat, i) && forall j :: 0 <= j < i ==> !OccursAt(s, pat, j)
  }

  predicate Absent(s: string, pat: string)
  {
    forall j :: 0 <= j <= |s| ==> !OccursAt(s, pat, j)
  }

  /** The address read from a withdrawal's description. `find` returns -1
      when the marker is absent, and -1 is truthy, so the source then takes
      `desc[7:]`; a marker at index 0 is falsy, so the address is ''. */
  function WithdrawalAddress(desc: string): (address: string)
    ensures forall i :: 0 < i && FirstOccurrence(desc, AddressMarker, i) ==> address == desc[i + 8..]
    ensures OccursAt(desc, AddressMarker, 0) ==> address == []
    ensures Absent(desc, AddressMarker) ==> address == SuffixFrom(desc, 7)
  {
    var idx := Find(desc, AddressMarker);
    if idx != 0 then SuffixFrom(desc, idx + 8) else []
  }

  /** A description naming the address after some text yields that address. */
  lemma AddressAfterText()
    ensures WithdrawalAddress("to address 1Kx9") == "1Kx9"
  {
    var d := "to address 1Kx9";
    assert d[3..11] == AddressMarker;
    forall j | 0 <= j < 3 ensures !OccursAt(d, AddressMarker, j) {
      assert d[j..j + 8][0] == d[j];
    }
    assert FirstOccurrence(d, AddressMarker, 3);
    assert d[11..] == "1Kx9";
  }

  /** A description that starts with the marker yields no address. */
  lemma AddressAtStartIsLost()
    ensures WithdrawalAddress("address 1Kx9") == ""
  {
    assert OccursAt("address 1Kx9", AddressMarker, 0);
  }

  /** A description without the marker yields its tail from index 7. */
  lemma AddressWithoutMarker()
    ensures WithdrawalAddress("sent out 1Kx9") == "t 1Kx9"
  {
    var d := "sent out 1Kx9";
    forall j | 0 <= j <= |d| ensures !OccursAt(d, AddressMarker, j) {
      if j + 8 <= |d| {
        assert d[j..j + 8][0] == d[j];
      }
    }
    assert d[7..] == "t 1Kx9";
  }

  /** One entry of the `TransHistory` answer. */
  datatype BtceTx = BtceTx(txType: int, desc: string, timestamp: int, currency: string, amount: real)

  /** The classification in the loop of `get_my_transactions`. */
  function ClassifyTx(entry: (string, BtceTx)): (r: Option<Transaction>)
    ensures r.Some? <==> entry.1.txType == 1 || entry.1.txType == 2
    ensures r.Some? ==> r.value.transactionId == entry.0 && r.value.time == entry.1.timestamp
                        && r.value.currency == entry.1.currency && r.value.amount == entry.1.amount
    ensures r.Some? && entry.1.txType == 1 ==>
      r.value.kind == Deposit && r.value.address == [] && r.value.fee == Some(0.0)
    ensures r.Some? && entry.1.txType == 2 ==>
      r.value.kind == Withdrawal && r.value.address == WithdrawalAddress(entry.1.desc) && r.value.fee.None?
  {
    var (tid, t) := entry;
    if t.txType == 1 then
      Some(Transaction(Deposit, tid, t.timestamp, t.currency, t.amount, [], Some(0.0)))
    else if t.txType == 2 then
      Some(Transaction(Withdrawal, tid, t.timestamp, t.currency, t.amount, WithdrawalAddress(t.desc), None))
    else None
  }

  /** `BTCE.get_my_transactions` over the answer's entries in iteration order. */
  method GetMyTransactions(history: seq<(string, BtceTx)>) returns (txs: seq<Transaction>)
    ensures txs == FilterMap(history, ClassifyTx)
  {
    txs := [];
    for i := 0 to |history|
      invariant txs == FilterMap(history[..i], ClassifyTx)
    {
      assert history[..i + 1][..i] == history[..i];
      var tid, t := history[i].0, history[i].1;
      if t.txType == 1 {
        txs := txs + [Transaction(Deposit, tid, t.timestamp, t.currency, t.amount, [], Some(0.0))];
      } else if t.txType == 2 {
        var address := WithdrawalAddress(t.desc);
        txs := txs + [Transaction(Withdrawal, tid, t.timestamp, t.currency, t.amount, address, None)];
      }
    }
    assert history[..|history|] == history;
  }

  /** Every reported transaction is a fee-free deposit with no address or a
      withdrawal without a fee; each comes from an entry of type 1 or 2 with
      its id, and every such entry is reported. */
  lemma TransactionsAreClassified(history: seq<(string, BtceTx)>, x: Transaction)
    ensures x in FilterMap(history, ClassifyTx) ==>
      (x.kind == Deposit && x.address == [] && x.fee == Some(0.0)) || (x.kind == Withdrawal && x.fee.None?)
    ensures x in FilterMap(history, ClassifyTx) <==>
      exists i :: 0 <= i < |history| && ClassifyTx(history[i]) == Some(x)
  {
    FilterMapMembers(history, ClassifyTx, x);
  }

  /** Entries of any other type are dropped: nothing is lost exactly when
      every entry has type 1 or 2. */
  lemma OtherTypesAreDropped(history: seq<(string, BtceTx)>)
    ensures |FilterMap(history, ClassifyTx)| == |history| <==>
      forall i :: 0 <= i < |history| ==> history[i].1.txType == 1 || history[i].1.txType == 2
  {
    FilterMapKeepsAll(history, ClassifyTx);
  }

  /** The funds entries with their currency codes uppercased. */
  function UpperKeys(funds: seq<(string, real)>): (r: seq<(string, real)>)
    ensures |r| == |funds|
    ensures forall i :: 0 <= i < |funds| ==> r[i] == (Upper(funds[i].0), funds[i].1)
  {
    seq(|funds|, i requires 0 <= i < |funds| => (Upper(funds[i].0), funds[i].1))
  }

  /** `BTCE.get_my_funds` over the `funds` object's entries in iteration order. */
  method GetMyFunds(funds: seq<(string, real)>) returns (r: map<string, real>)
    ensures r == Collect(UpperKeys(funds))
  {
    r := map[];
    for i := 0 to |funds|
      invariant r == Collect(UpperKeys(funds[..i]))
    {
      var key, value := funds[i].0, funds[i].1;
      assert UpperKeys(funds[..i + 1])[..i] == UpperKeys(funds[..i]);
      r := r[Upper(key) := value];
    }
    assert funds[..|funds|] == funds;
  }

  /** Every key is an uppercased currency code of the answer, and a code
      that no later entry repeats (up to case) keeps its amount unchanged. */
  lemma FundsAreKeyedByUpperCode(funds: seq<(string, real)>, i: nat)
    requires i < |funds|
    requires forall j :: i < j < |funds| ==> Upper(funds[j].0) != Upper(funds[i].0)
    ensures Collect(UpperKeys(funds)).Keys == set j | 0 <= j < |funds| :: Upper(funds[j].0)
    ensures Upper(funds[i].0) in Collect(UpperKeys(funds))
    ensures Collect(UpperKeys(funds))[Upper(funds[i].0)] == funds[i].1
  {
    var e := UpperKeys(funds);
    assert (set j | 0 <= j < |e| :: e[j].0) == set j | 0 <= j < |funds| :: Upper(funds[j].0);
    CollectLastWins(e, i);
  }

  /** Every stored amount is the amount of an entry whose code uppercases to its key. */
  lemma FundsValuesAreReported(funds: seq<(string, real)>, k: string)
    requires k in Collect(UpperKeys(funds))
    ensures exists j :: 0 <= j < |funds| && Upper(funds[j].0) == k && funds[j].1 == Collect(UpperKeys(funds))[k]
  {
    CollectValuesFromEntries(UpperKeys(funds), k);
    var j :| 0 <= j < |funds| && UpperKeys(funds)[j] == (k, Collect(UpperKeys(funds))[k]);
    assert Upper(funds[j].0) == k;
  }
}
