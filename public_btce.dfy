/** `BTCEPublic` of cryptex/public/btce.py: the unauthenticated BTC-e client.
    It assembles request URLs and parameters, and caches the market list and
    lookup table it derives from the `info` answer. */
module PublicBtce {
  import opened Wrappers
  import opened Records
  import opened Text
  import opened Dicts
  import opened MarketLookup
  import opened BtceExchange

  const UrlRoot: string := "https://btc-e.com/api/3/"

  /** The pair strings of the `info` answer all name two-code markets. */
  lemma PairsGiveMarkets(pairs: seq<string>)
    requires forall i :: 0 <= i < |pairs| ==> '_' in pairs[i]
    ensures AllPairs(PairsToMarkets(pairs))
  {
    forall i | 0 <= i < |pairs| ensures |PairsToMarkets(pairs)[i]| >= 2 {
      PairWithSeparatorHasTwoCodes(pairs[i]);
    }
  }

  /** The pair string of every requested market, in order. */
  function PairStrings(markets: seq<Market>): (ps: seq<string>)
    requires forall i :: 0 <= i < |markets| ==> |markets[i]| >= 2
    ensures |ps| == |markets|
    ensures forall i :: 0 <= i < |markets| ==> ps[i] == MarketToPair(markets[i])
  {
    seq(|markets|, i requires 0 <= i < |markets| => MarketToPair(markets[i]))
  }

  /** The '-'-joined pair strings are empty exactly when no market is named. */
  lemma PairComponentEmpty(markets: seq<Market>)
    requires forall i :: 0 <= i < |markets| ==> |markets[i]| >= 2
    ensures Join(PairStrings(markets), '-') == [] <==> markets == []
  {
    var ps := PairStrings(markets);
    if |ps| == 1 {
      assert '_' in ps[0];
    } else if |ps| >= 2 {
      assert (ps[0] + ['-'] + Join(ps[1..], '-'))[|ps[0]|] == '-';
    }
  }

  /** `perform_request` up to the HTTP call: the URL and the parameters. */
  method PerformRequest(apiMethod: string, markets: seq<Market>, limit: int, ignoreInvalid: bool)
    returns (r: Result<(string, Params), RequestError>)
    requires forall i :: 0 <= i < |markets| ==> |markets[i]| >= 2
    ensures r.Err? <==> limit > MaxLimit
    ensures r.Ok? ==> ParamsFor(r.value.1, limit, ignoreInvalid)
    ensures r.Ok? && markets == [] ==> r.value.0 == UrlRoot + apiMethod
    ensures r.Ok? && markets != [] ==>
      r.value.0 == UrlRoot + apiMethod + ['/'] + Join(PairStrings(markets), '-')
  {
    var pairStrings := PairStrings(markets);
    var component := Join(pairStrings, '-');
    var params := BuildParams(limit, ignoreInvalid);
    if params.Err? {
      return Err(params.error);
    }
    var url := UrlRoot + apiMethod;
    PairComponentEmpty(markets);
    if component != [] {
      url := url + ['/'] + component;
    }
    return Ok((url, params.value));
  }

  /** The URL names the requested markets: reading the pair strings back
      from it gives every market again, when each is two upper-case codes
      without '_' or '-'. */
  lemma RequestNamesMarkets(markets: seq<Market>)
    requires |markets| >= 1
    requires forall i :: 0 <= i < |markets| ==> |markets[i]| == 2
    requires forall i, j :: 0 <= i < |markets| && 0 <= j < 2 ==>
      '_' !in markets[i][j] && '-' !in markets[i][j] && HasNoLowerLetter(markets[i][j])
    ensures var ps := Split(Join(PairStrings(markets), '-'), '-');
      |ps| == |markets| && forall i :: 0 <= i < |ps| ==> PairToMarket(ps[i]) == markets[i]
  {
    var ps := PairStrings(markets);
    forall i | 0 <= i < |ps| ensures '-' !in ps[i] && PairToMarket(ps[i]) == markets[i] {
      var m := markets[i];
      CaseKeepsSeparator(m[0], '-');
      CaseKeepsSeparator(m[1], '-');
      assert ps[i] == Lower(m[0]) + ['_'] + Lower(m[1]);
      MarketRoundTrip(m);
    }
    SplitOfJoin(ps, '-');
  }

  /** `get_last_trade_prices`' dict: every ticker key made a market tuple by
      `to_tuple`, with its last price. */
  function LastTradePrices(ticker: seq<(string, real)>): (prices: map<Market, real>)
    ensures prices.Keys == set i | 0 <= i < |ticker| :: PairToMarket(ticker[i].0)
  {
    var entries := TickerEntries(ticker);
    assert (set i | 0 <= i < |entries| :: entries[i].0) == set i | 0 <= i < |ticker| :: PairToMarket(ticker[i].0);
    Collect(entries)
  }

  function TickerEntries(ticker: seq<(string, real)>): (e: seq<(Market, real)>)
    ensures |e| == |ticker|
    ensures forall i :: 0 <= i < |ticker| ==> e[i] == (PairToMarket(ticker[i].0), ticker[i].1)
  {
    seq(|ticker|, i requires 0 <= i < |ticker| => (PairToMarket(ticker[i].0), ticker[i].1))
  }

  /** A lower-case ticker key "a_b" becomes the market key (A, B), from
      which `market_to_pair` gives the ticker key back, and holds that key's
      last price when no later key names the same market. */
  lemma LastTradePriceKey(ticker: seq<(string, real)>, i: nat, a: string, b: string)
    requires i < |ticker| && ticker[i].0 == a + ['_'] + b
    requires '_' !in a && '_' !in b && HasNoUpperLetter(a) && HasNoUpperLetter(b)
    requires forall j :: i < j < |ticker| ==> PairToMarket(ticker[j].0) != PairToMarket(ticker[i].0)
    ensures PairToMarket(ticker[i].0) == [Upper(a), Upper(b)]
    ensures MarketToPair(PairToMarket(ticker[i].0)) == ticker[i].0
    ensures LastTradePrices(ticker)[PairToMarket(ticker[i].0)] == ticker[i].1
  {
    PairRoundTrip(a, b);
    SplitOfJoin([a, b], '_');
    assert Join([a, b], '_') == a + ['_'] + b;
    CollectLastWins(TickerEntries(ticker), i);
  }

  class BtcePublic {
    /** The pair strings of the `info` answer. */
    const infoPairs: seq<string>
    var markets: Option<seq<Market>>
    var lookup: Option<Lookup>
    /** How many times the markets and table were derived from `info`. */
    ghost var builds: nat

    /** Both caches are filled together, once, from the `info` answer. */
    ghost predicate Valid()
      reads this
    {
      && (forall i :: 0 <= i < |infoPairs| ==> '_' in infoPairs[i])
      && (markets.Some? <==> lookup.Some?)
      && (markets.Some? ==>
            && markets.value == PairsToMarkets(infoPairs)
            && AllPairs(markets.value)
            && lookup.value == BuildLookup(markets.value)
            && builds == 1)
      && (markets.None? ==> builds == 0)
    }

    constructor(infoPairs: seq<string>)
      requires forall i :: 0 <= i < |infoPairs| ==> '_' in infoPairs[i]
      ensures Valid() && this.infoPairs == infoPairs && markets.None? && lookup.None?
    {
      this.infoPairs := infoPairs;
      markets := None;
      lookup := None;
      builds := 0;
    }

    /** `get_markets`: the markets and the table are computed on the first
        call only; later calls return the cached list. */
    method GetMarkets() returns (r: seq<Market>)
      requires Valid()
      modifies this
      ensures Valid() && builds == 1
      ensures r == PairsToMarkets(infoPairs) && markets == Some(r)
      ensures lookup == Some(BuildLookup(r))
      ensures old(markets).Some? ==> unchanged(this)
    {
      if markets.None? {
        var ms := PairsToMarkets(infoPairs);
        PairsGiveMarkets(infoPairs);
        markets := Some(ms);
        var table := FillLookup(ms);
        lookup := Some(table);
        builds := builds + 1;
      }
      r := markets.value;
    }

    /** `market_with_currencies` */
    method MarketWithCurrencies(a: string, b: Option<string>) returns (r: Found)
      requires Valid()
      modifies this
      ensures Valid() && builds == 1
      ensures old(lookup).Some? ==> unchanged(this)
      ensures r == Query(BuildLookup(PairsToMarkets(infoPairs)), a, b)
    {
      if lookup.None? {
        var _ := GetMarkets();
      }
      r := Query(lookup.value, a, b);
    }

    /** `get_last_trade_prices`, given the ticker answer as (pair, last
        price) entries: the ticker request names every market of `info`. */
    method GetLastTradePrices(ticker: seq<(string, real)>)
      returns (request: Result<(string, Params), RequestError>, prices: map<Market, real>)
      requires Valid()
      ensures request.Ok? && ParamsFor(request.value.1, 0, false)
      ensures infoPairs != [] ==>
        request.value.0 == UrlRoot + "ticker" + ['/'] + Join(PairStrings(PairsToMarkets(infoPairs)), '-')
      ensures prices == LastTradePrices(ticker)
    {
      var pairs := PairsToMarkets(infoPairs);
      PairsGiveMarkets(infoPairs);
      request := PerformRequest("ticker", pairs, 0, false);
      prices := LastTradePrices(ticker);
    }
  }
}
