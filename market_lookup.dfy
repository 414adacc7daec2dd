/** The symmetric two-level currency table that cryptex/public/exchange_common.py
    (`_make_market_lookup`) and cryptex/public/btce.py (`get_markets`) build
    from a list of markets: lookup[a][b] and lookup[b][a] both hold the market
    whose two currencies, lowercased, are a and b. */
module MarketLookup {
  import opened Wrappers
  import opened Records
  import opened Text

  type Lookup = map<string, map<string, Market>>

  /** The source reads `pair[0]` and `pair[1]` of every market. */
  predicate AllPairs(markets: seq<Market>)
  {
    forall i :: 0 <= i < |markets| ==> |markets[i]| >= 2
  }

  /** Every component of every market, lowercased: the table's keys. */
  function Currencies(markets: seq<Market>): set<string>
  {
    set i, j | 0 <= i < |markets| && 0 <= j < |markets[i]| :: Lower(markets[i][j])
  }

  /** The table before the loop: an empty inner dict under every currency. */
  function EmptyLookup(keys: set<string>): (l: Lookup)
    ensures l.Keys == keys
  {
    map k | k in keys :: map[]
  }

  /** The inner dict under key `k`; every key the loop stores under is one
      of the currencies, so the default is never taken from BuildLookup. */
  function Row(l: Lookup, k: string): map<string, Market>
  {
    if k in l then l[k] else map[]
  }

  /** The two stores the loop body makes for one market. */
  function AddMarket(l: Lookup, m: Market): Lookup
    requires |m| >= 2
  {
    var a, b := Lower(m[0]), Lower(m[1]);
    var l1 := l[a := Row(l, a)[b := m]];
    l1[b := Row(l1, b)[a := m]]
  }

  /** Both currencies of every market are keys of `l`. */
  predicate KeysCover(l: Lookup, markets: seq<Market>)
    requires AllPairs(markets)
  {
    forall i :: 0 <= i < |markets| ==> Lower(markets[i][0]) in l && Lower(markets[i][1]) in l
  }

  lemma KeysCoverPrefix(l: Lookup, markets: seq<Market>, n: nat)
    requires AllPairs(markets) && KeysCover(l, markets) && n <= |markets|
    ensures AllPairs(markets[..n]) && KeysCover(l, markets[..n])
  {
    assert forall i :: 0 <= i < n ==> markets[..n][i] == markets[i];
  }

  function Fill(l: Lookup, markets: seq<Market>): Lookup
    requires AllPairs(markets)
    decreases |markets|
  {
    if markets == [] then l
    else AddMarket(Fill(l, markets[..|markets| - 1]), markets[|markets| - 1])
  }

  /** Storing markets whose currencies are already keys adds no key. */
  lemma {:induction false} FillKeepsKeys(l: Lookup, markets: seq<Market>)
    requires AllPairs(markets) && KeysCover(l, markets)
    ensures Fill(l, markets).Keys == l.Keys
    decreases |markets|
  {
    if markets != [] {
      KeysCoverPrefix(l, markets, |markets| - 1);
      FillKeepsKeys(l, markets[..|markets| - 1]);
    }
  }

  lemma CurrenciesAreKeys(markets: seq<Market>)
    requires AllPairs(markets)
    ensures KeysCover(EmptyLookup(Currencies(markets)), markets)
  {
    forall i | 0 <= i < |markets|
      ensures Lower(markets[i][0]) in Currencies(markets) && Lower(markets[i][1]) in Currencies(markets)
    {
      CurrenciesOfMarket(markets, i);
    }
  }

  /** The table after `_make_market_lookup` over `markets`. */
  function BuildLookup(markets: seq<Market>): (l: Lookup)
    requires AllPairs(markets)
    ensures l.Keys == Currencies(markets)
  {
    CurrenciesAreKeys(markets);
    FillKeepsKeys(EmptyLookup(Currencies(markets)), markets);
    Fill(EmptyLookup(Currencies(markets)), markets)
  }

  /** The two stores add entry (x, y) exactly when the market connects x and
      y, overwrite it with the market, and keep every other entry. */
  lemma AddMarketEntries(l: Lookup, m: Market, x: string, y: string)
    requires |m| >= 2
    ensures var r := AddMarket(l, m);
      && ((x in r && y in r[x]) <==> (Joins(m, x, y) || (x in l && y in l[x])))
      && (Joins(m, x, y) ==> r[x][y] == m)
      && (!Joins(m, x, y) && x in l && y in l[x] ==> r[x][y] == l[x][y])
  {
  }

  /** Market `m` connects the (lowercased) currencies x and y, in either order. */
  predicate Joins(m: Market, x: string, y: string)
  {
    |m| >= 2 && ((Lower(m[0]) == x && Lower(m[1]) == y) || (Lower(m[0]) == y && Lower(m[1]) == x))
  }

  /** markets[i] is the last market connecting x and y. */
  predicate IsLastJoining(markets: seq<Market>, i: int, x: string, y: string)
  {
    0 <= i < |markets| && Joins(markets[i], x, y)
    && forall j :: i < j < |markets| ==> !Joins(markets[j], x, y)
  }

  /** Entry (x, y) exists exactly when some market connects x and y, and it
      holds the last such market. */
  lemma {:induction false} FillEntries(l: Lookup, markets: seq<Market>, x: string, y: string)
    requires AllPairs(markets)
    requires forall k :: k in l ==> l[k] == map[]
    ensures (x in Fill(l, markets) && y in Fill(l, markets)[x])
            <==> exists i :: 0 <= i < |markets| && Joins(markets[i], x, y)
    ensures x in Fill(l, markets) && y in Fill(l, markets)[x] ==>
            exists i :: IsLastJoining(markets, i, x, y) && Fill(l, markets)[x][y] == markets[i]
    decreases |markets|
  {
    if markets != [] {
      var n := |markets| - 1;
      var prefix, m := markets[..n], markets[n];
      assert AllPairs(prefix);
      FillEntries(l, prefix, x, y);
      var f := Fill(l, prefix);
      assert Fill(l, markets) == AddMarket(f, m);
      AddMarketEntries(f, m, x, y);
      if Joins(m, x, y) {
        assert IsLastJoining(markets, n, x, y);
      } else {
        if exists i :: 0 <= i < |markets| && Joins(markets[i], x, y) {
          var i :| 0 <= i < |markets| && Joins(markets[i], x, y);
          assert prefix[i] == markets[i];
        }
        if x in f && y in f[x] {
          var i :| IsLastJoining(prefix, i, x, y) && f[x][y] == prefix[i];
          assert forall j :: 0 <= j < n ==> prefix[j] == markets[j];
          assert IsLastJoining(markets, i, x, y);
        }
      }
    }
  }

  /** The key set is exactly the set of lowercased currencies of the markets. */
  lemma LookupKeys(markets: seq<Market>)
    requires AllPairs(markets)
    ensures BuildLookup(markets).Keys == Currencies(markets)
  {
    CurrenciesAreKeys(markets);
    FillKeepsKeys(EmptyLookup(Currencies(markets)), markets);
  }

  /** Every market is reachable from both of its currencies, and an entry
      holds the last market with that pair of lowercased currencies. */
  lemma LookupEntries(markets: seq<Market>, x: string, y: string)
    requires AllPairs(markets)
    ensures (x in BuildLookup(markets) && y in BuildLookup(markets)[x])
            <==> exists i :: 0 <= i < |markets| && Joins(markets[i], x, y)
    ensures x in BuildLookup(markets) && y in BuildLookup(markets)[x] ==>
            exists i :: IsLastJoining(markets, i, x, y) && BuildLookup(markets)[x][y] == markets[i]
  {
    FillEntries(EmptyLookup(Currencies(markets)), markets, x, y);
  }

  /** The last market with given lowercased currencies is the one stored. */
  lemma LookupHoldsLastMarket(markets: seq<Market>, i: nat)
    requires AllPairs(markets) && i < |markets|
    requires forall j :: i < j < |markets| ==> !Joins(markets[j], Lower(markets[i][0]), Lower(markets[i][1]))
    ensures var l, a, b := BuildLookup(markets), Lower(markets[i][0]), Lower(markets[i][1]);
      a in l && b in l[a] && l[a][b] == markets[i] && b in l && a in l[b] && l[b][a] == markets[i]
  {
    var a, b := Lower(markets[i][0]), Lower(markets[i][1]);
    LookupEntries(markets, a, b);
    LookupEntries(markets, b, a);
    assert Joins(markets[i], a, b) && Joins(markets[i], b, a);
    var i1 :| IsLastJoining(markets, i1, a, b) && BuildLookup(markets)[a][b] == markets[i1];
    var i2 :| IsLastJoining(markets, i2, b, a) && BuildLookup(markets)[b][a] == markets[i2];
    assert i1 == i;
    assert i2 == i;
  }

  /** The table is symmetric: lookup[x][y] exists exactly when lookup[y][x] does, and they agree. */
  lemma LookupSymmetric(markets: seq<Market>, x: string, y: string)
    requires AllPairs(markets)
    ensures var l := BuildLookup(markets);
      (x in l && y in l[x]) <==> (y in l && x in l[y])
    ensures var l := BuildLookup(markets);
      x in l && y in l[x] ==> l[x][y] == l[y][x]
  {
    LookupEntries(markets, x, y);
    LookupEntries(markets, y, x);
    var l := BuildLookup(markets);
    if x in l && y in l[x] {
      var i1 :| IsLastJoining(markets, i1, x, y) && l[x][y] == markets[i1];
      var i2 :| IsLastJoining(markets, i2, y, x) && l[y][x] == markets[i2];
      assert Joins(markets[i1], y, x) && Joins(markets[i2], x, y);
      assert i1 == i2;
    }
  }

  lemma FillStep(l: Lookup, markets: seq<Market>, i: nat)
    requires AllPairs(markets) && i < |markets|
    ensures AllPairs(markets[..i]) && AllPairs(markets[..i + 1])
    ensures Fill(l, markets[..i + 1]) == AddMarket(Fill(l, markets[..i]), markets[i])
  {
    assert markets[..i + 1][..i] == markets[..i];
  }

  lemma CurrenciesOfMarket(markets: seq<Market>, i: nat)
    requires AllPairs(markets) && i < |markets|
    ensures Lower(markets[i][0]) in Currencies(markets) && Lower(markets[i][1]) in Currencies(markets)
  {
    assert 0 < |markets[i]| && 1 < |markets[i]|;
  }

  /** The loop of `_make_market_lookup` / `get_markets`. */
  method FillLookup(markets: seq<Market>) returns (lookup: Lookup)
    requires AllPairs(markets)
    ensures lookup == BuildLookup(markets)
  {
    var flattened := Currencies(markets);
    lookup := map k | k in flattened :: map[];
    ghost var start := EmptyLookup(flattened);
    for i := 0 to |markets|
      invariant AllPairs(markets[..i])
      invariant lookup == Fill(start, markets[..i])
      invariant lookup.Keys == flattened
    {
      var pair := markets[i];
      FillStep(start, markets, i);
      CurrenciesOfMarket(markets, i);
      lookup := lookup[Lower(pair[0]) := lookup[Lower(pair[0])][Lower(pair[1]) := pair]];
      lookup := lookup[Lower(pair[1]) := lookup[Lower(pair[1])][Lower(pair[0]) := pair]];
    }
    assert markets[..|markets|] == markets;
  }

  /** What a lookup query returns: None, the list of markets under one
      currency (its order is the dict's, so a set here), or one market. */
  datatype Found = NotFound | MarketsOf(markets: set<Market>) | OneMarket(market: Market)

  /** `lookup_markets(currency_a, currency_b)` / `market_with_currencies`
      once the table exists. The query is not lowercased. This is the
      reference definition; QueryPair, QueryOne and QueryUpperCaseMisses
      state what it answers on a built table. */
  function Query(l: Lookup, a: string, b: Option<string>): (r: Found)
    ensures r.MarketsOf? <==> b.None? && a in l
    ensures r.MarketsOf? ==> r.markets == l[a].Values
    ensures r.OneMarket? <==> b.Some? && a in l && b.value in l[a]
    ensures r.OneMarket? ==> r.market == l[a][b.value]
  {
    if b.None? && a in l then MarketsOf(l[a].Values)
    else if a in l && b.Some? && b.value in l[a] then OneMarket(l[a][b.value])
    else NotFound
  }

  /** A query for two currencies finds the last market connecting them, and
      finds nothing when no market connects them. */
  lemma QueryPair(markets: seq<Market>, a: string, b: string)
    requires AllPairs(markets)
    ensures var r := Query(BuildLookup(markets), a, Some(b));
      (r.NotFound? <==> forall i :: 0 <= i < |markets| ==> !Joins(markets[i], a, b))
      && (r.OneMarket? ==> exists i :: IsLastJoining(markets, i, a, b) && r.market == markets[i])
      && !r.MarketsOf?
  {
    LookupEntries(markets, a, b);
  }

  /** A query for one currency lists exactly the markets stored under it:
      for each other currency y, the last market connecting it with y. */
  lemma QueryOne(markets: seq<Market>, a: string, m: Market)
    requires AllPairs(markets)
    ensures Query(BuildLookup(markets), a, None).MarketsOf? <==> a in Currencies(markets)
    ensures Query(BuildLookup(markets), a, None).MarketsOf? ==>
      (m in Query(BuildLookup(markets), a, None).markets
       <==> exists y :: y in BuildLookup(markets)[a] && m == BuildLookup(markets)[a][y])
  {
    LookupKeys(markets);
  }

  /** Keys are lowercase, so a query with an upper-case letter finds nothing. */
  lemma QueryUpperCaseMisses(markets: seq<Market>, a: string, b: Option<string>)
    requires AllPairs(markets)
    requires !HasNoUpperLetter(a)
    ensures Query(BuildLookup(markets), a, b) == NotFound
  {
    LookupKeys(markets);
    if a in Currencies(markets) {
      var i, j :| 0 <= i < |markets| && 0 <= j < |markets[i]| && a == Lower(markets[i][j]);
      LowerIdempotent(markets[i][j]);
      assert false;
    }
  }
}
