/** `PublicCommon` of cryptex/public/exchange_common.py: a public client that
    knows its markets and answers currency queries from a lookup table it
    builds on demand. */
module ExchangeCommon {
  import opened Wrappers
  import opened Records
  import opened MarketLookup

  class PublicCommon {
    /** The markets the concrete client provides. */
    var markets: seq<Market>
    var marketLookup: Option<Lookup>

    /** A built table is always the one for the current markets. */
    ghost predicate Valid()
      reads this
    {
      AllPairs(markets) && (marketLookup.Some? ==> marketLookup.value == BuildLookup(markets))
    }

    constructor(markets: seq<Market>)
      requires AllPairs(markets)
      ensures Valid() && this.markets == markets && marketLookup.None?
    {
      this.markets := markets;
      marketLookup := None;
    }

    /** `_make_market_lookup` */
    method MakeMarketLookup()
      requires Valid()
      modifies this
      ensures Valid() && markets == old(markets)
      ensures marketLookup == Some(BuildLookup(markets))
    {
      var lookup := FillLookup(markets);
      marketLookup := Some(lookup);
    }

    /** `get_markets`: rebuilds the table on every call and returns the
        markets unchanged. */
    method GetMarkets() returns (r: seq<Market>)
      requires Valid()
      modifies this
      ensures Valid() && markets == old(markets) && r == markets
      ensures marketLookup == Some(BuildLookup(markets))
    {
      MakeMarketLookup();
      r := markets;
    }

    /** `lookup_markets`: builds the table on the first query only, then
        answers from it. */
    method LookupMarkets(a: string, b: Option<string>) returns (r: Found)
      requires Valid()
      modifies this
      ensures Valid() && markets == old(markets)
      ensures marketLookup == Some(BuildLookup(markets))
      ensures old(marketLookup).Some? ==> unchanged(this)
      ensures r == Query(BuildLookup(markets), a, b)
    {
      if marketLookup.None? {
        var _ := GetMarkets();
      }
      r := Query(marketLookup.value, a, b);
    }
  }
}
