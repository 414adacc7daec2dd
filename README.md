# cryptex in Dafny

cryptex is a Python library that wraps the trading APIs of the BTC-e and Cryptsy
exchanges behind one interface. It turns their answers into `Trade` and
`Transaction` records, and from those it computes the unrealized profit/loss of
a market: the buy lots still open after every sell has been netted against
earlier buys. This project models the parts of cryptex that compute something
and proves properties of that model:

- the profit/loss lot reduction (`PLCalculator`, `TimeSort`);
- decimal quantization to 8 places (`Common`);
- the BTC-e adapter's pair conversions, request parameters, trade and
  transaction formatting, withdrawal-address parsing and funds map
  (`BtceExchange`);
- the Cryptsy adapter's cached market map, market-id resolution, trade
  formatting and transaction classification (`CryptsyExchange`);
- the symmetric two-level currency lookup table (`MarketLookup`) and the two
  public clients that build it lazily (`ExchangeCommon`, `PublicBtce`).

Amounts and prices are exact `real`s, as Python's `Decimal` values are exact
here. Timestamps are integers. Every server answer is a parameter: a JSON
object is either a `map` or a sequence of (key, value) entries in the dict's
iteration order. Loops of the source are methods with loop invariants, proved
equal to specification functions. Objects that cache data in fields are
classes whose methods state the new state of those fields.

The lot reduction has consequences that a reader of its names may not
expect; the model keeps them as the code has them:

- **The amount pushed back after a Sell is negated.** When the pop loop of
  `merge_trades` stops, the popped total `total_amount` has reached
  `trade.amount`. The leftover of the last popped lot is then
  `total_amount - trade.amount`, which is zero or positive. The code pushes
  `trade.amount - total_amount` instead, which is zero or negative.
  `PLCalculator.NegatedLeftover` proves that Buy 10 at 1, Buy 5 at 2, Sell 12
  leaves one lot of **−3** at price 1, where the leftover is +3.
  `PLCalculator.SellOutcome` gives the stack's total after any Sell:
  `before + sold − 2·popped`. That equals `before − sold` only when the popped
  total matches the sell exactly.
- Lots are consumed from the top of a stack, most recently pushed first,
  despite the name `oldest_buy`.
- A Sell with a negative amount pops nothing and then reads a field of
  `oldest_buy`, which is still `None`. The model returns the error
  `NoLotToPushBack` for it.
- `convert_transaction` turns every transaction that is not a `Deposit` into
  a Sell. That includes Cryptsy's unclassified CryptsyPoints credits.
- `cryptex/public/btce.py` calls `BTCEUtil.pair_to_market` and
  `market_to_pair`. BTCEUtil is not part of this model. Those calls are
  modelled by `BTCEBase._pair_to_market` and `_market_to_pair` of
  `cryptex/exchange/btce.py`.

BTC-e's withdrawal-address parsing is modelled as written: `find` returns −1
when the marker is absent, and −1 is truthy. As a result:

- a description without "address " yields its tail from index 7;
- a description that starts with the marker yields an empty address.

`BtceExchange.AddressWithoutMarker` and `BtceExchange.AddressAtStartIsLost`
prove both on concrete inputs.

## Model

| member | source | states |
|---|---|---|
| Common.TruncateTowardZero | cryptex/common.py:3 | ROUND_DOWN drops the fraction toward zero: the result is the floor for non-negative values and the ceiling for non-positive ones |
| Common.Quantize | cryptex/common.py:3-11 | fails (InvalidOperation) exactly when the magnitude reaches 10^20, so that the coefficient needs more than 28 digits; otherwise the result is a multiple of 10^-8, no larger in magnitude than the input, has the same sign, and is within 10^-8 of it |
| Common.QuantizeKeepsQuantized | cryptex/common.py:10-11 | a value with at most 8 fractional digits and a magnitude below 10^20 is returned unchanged |
| Common.QuantizeIdempotent | cryptex/common.py:10-11 | quantizing twice gives the same as quantizing once |
| Common.TruncateMonotone | cryptex/common.py:3 | truncation toward zero is monotone |
| Common.QuantizeMonotone | cryptex/common.py:3-11 | x ≤ y implies quantize(x) ≤ quantize(y) |
| TimeSort.SortByTime | cryptex/pl_calculator.py:38 | `sorted(..., key=datetime)` gives a sequence ordered by time, a permutation of its input, with the events of each time in their input order (stability) |
| TimeSort.StableSortIsUnique | cryptex/pl_calculator.py:38 | two time-ordered sequences with the same events in the same order at every time are equal, so any stable sort gives the same result |
| PLCalculator.ConvertTransaction | cryptex/pl_calculator.py:12-23 | a Deposit becomes a Buy and any other transaction a Sell, with price 0, the transaction's time and amount, no ids, and the market's currencies |
| PLCalculator.MarketTrades | cryptex/pl_calculator.py:31-33 | keeps exactly the trades whose base and counter are the market's |
| PLCalculator.BaseTransactions | cryptex/pl_calculator.py:34-35 | keeps exactly the transactions in the market's base currency |
| PLCalculator.MarketTradesOne | cryptex/pl_calculator.py:31-33 | one trade is kept exactly when its base and counter are the market's |
| PLCalculator.MarketTradesAppend | cryptex/pl_calculator.py:31-33 | the trade filter keeps order and multiplicity: filtering a + b gives the filtered a followed by the filtered b |
| PLCalculator.BaseTransactionsOne | cryptex/pl_calculator.py:34-35 | one transaction is kept exactly when it is in the market's base currency |
| PLCalculator.BaseTransactionsAppend | cryptex/pl_calculator.py:34-35 | the transaction filter keeps order and multiplicity: filtering a + b gives the filtered a followed by the filtered b |
| PLCalculator.ConvertAll | cryptex/pl_calculator.py:36 | converts every kept transaction, position by position |
| PLCalculator.GetTrades | cryptex/pl_calculator.py:25-39 | the result is sorted by time, is a permutation of trades plus converted transactions, and at each time lists the trades before the transactions, each in input order |
| PLCalculator.GetTradesMembers | cryptex/pl_calculator.py:30-39 | an event is in the result exactly when it is a trade of the market or the conversion of a base-currency transaction |
| PLCalculator.SortedInputIsKept | cryptex/pl_calculator.py:38 | events already in time order are returned unchanged |
| PLCalculator.PopUntil | cryptex/pl_calculator.py:52-55 | the pop loop of a Sell either raises the IndexError of `pop`, or stops with a prefix of the stack left and a popped total that reaches the amount; `oldest_buy` is the last lot popped, the one just above what is left, and stays as it was when nothing is popped |
| PLCalculator.MergeTrade | cryptex/pl_calculator.py:45-61 | `merge_trades` for one event: only a Sell can raise; the stack grows by at most one lot, a Sell never grows it, and everything below the top lot was already on the stack |
| PLCalculator.ReduceLots | cryptex/pl_calculator.py:63 | `reduce(merge_trades, ..., [])`: a successful fold leaves at most one open lot per event |
| PLCalculator.UnrealizedPlOf | cryptex/pl_calculator.py:41-63 | `unrealized_pl`: every lot it returns is a Buy of the market without ids, and there are at most as many as events of the market |
| PLCalculator.PopUntilStops | cryptex/pl_calculator.py:53-55 | the pop loop stops at the first k whose top-k total reaches the sell amount; the lots below are untouched and `oldest_buy` is the k-th lot from the top |
| PLCalculator.PopUntilUnderflow | cryptex/pl_calculator.py:53-54 | the pop loop fails with the IndexError of `pop` on an empty list exactly when no top of the stack reaches the amount |
| PLCalculator.PopUntilPops | cryptex/pl_calculator.py:53-55 | what the loop leaves is a prefix of the stack; when it ran, it popped at least one lot and reached the amount |
| PLCalculator.SellOutcome | cryptex/pl_calculator.py:50-60 | an exact match pushes nothing back, and a Sell of 0 leaves the stack unchanged; otherwise one lot is pushed with the last popped lot's time and price and amount sell − popped < 0; a negative Sell fails; the total becomes before + sell − 2·popped |
| PLCalculator.MergeTradeFails | cryptex/pl_calculator.py:45-60 | a Buy never fails; a Sell fails with IndexError exactly when it exceeds every top of the stack, and with the `None` access exactly when its amount is negative |
| PLCalculator.MergeTradeKeepsLots | cryptex/pl_calculator.py:45-61 | every lot on the stack stays a Buy with no ids and the market's currencies |
| PLCalculator.ReduceLotsGivesLots | cryptex/pl_calculator.py:41-63 | every lot of a successful reduction has no ids and the market's currencies |
| PLCalculator.ReduceLotsErrorSticks | cryptex/pl_calculator.py:63 | once an event raises, the whole reduction raises that error whatever events follow |
| PLCalculator.BuysArePushedInOrder | cryptex/pl_calculator.py:46-49 | a run of Buys from the empty stack leaves one lot per Buy, in order, with its time, amount and price |
| PLCalculator.MergeTradeBuy | cryptex/pl_calculator.py:46-49 | a Buy on any stack appends exactly one lot with its time, amount and price on top of all earlier lots, which stay as they were |
| PLCalculator.MergeTradeSeesSideTimeAmountPrice | cryptex/pl_calculator.py:45-60 | merge_trades reads only the side, time, amount and price of an event |
| PLCalculator.NegatedLeftover | cryptex/pl_calculator.py:41-63 | Buy 10 at 1, Buy 5 at 2, Sell 12 leaves exactly one lot of −3 at time 0 and price 1 |
| PLCalculator.MergeTrades | cryptex/pl_calculator.py:45-61 | the append/pop loop computes the specification's result for one event, the same errors included |
| PLCalculator.UnrealizedPl | cryptex/pl_calculator.py:41-63 | the fold over the sorted events from `[]` equals the specification's left fold, and every lot it returns belongs to the market |
| Lists.FilterMapAppend | cryptex/exchange/cryptsy.py:232-252 | the classification loops keep input order: the output for a + b is the output for a followed by that for b |
| Lists.FilterMapMembers | cryptex/exchange/cryptsy.py:232-252 | an output element is exactly the image of some kept input entry |
| Lists.FilterMapKeepsAll | cryptex/exchange/btce.py:190-215 | nothing is dropped exactly when every entry is kept |
| Dicts.Collect | cryptex/exchange/btce.py:218-220 | a dict filled from entries has as keys exactly the keys of the entries |
| Dicts.CollectLastWins | cryptex/exchange/btce.py:218-220 | a key holds the value of its last entry |
| Dicts.CollectValuesFromEntries | cryptex/exchange/btce.py:218-220 | every stored value comes from an entry with that key |
| MarketLookup.EmptyLookup | cryptex/public/exchange_common.py:12 | the empty table has exactly the given currencies as keys |
| MarketLookup.CurrenciesAreKeys | cryptex/public/exchange_common.py:11-12 | both lowercased currencies of every market are keys of the empty table |
| MarketLookup.FillKeepsKeys | cryptex/public/exchange_common.py:14-16 | the loop's stores add no key when every market's currencies are already keys (no KeyError) |
| MarketLookup.AddMarketEntries | cryptex/public/exchange_common.py:15-16 | the two stores for one market add or overwrite exactly the entries (a, b) and (b, a) with the market and keep every other entry |
| MarketLookup.FillEntries | cryptex/public/exchange_common.py:14-16 | starting from a table whose rows are all empty, after the loop entry (x, y) exists exactly when some market joins x and y, and holds the last such market |
| MarketLookup.LookupKeys | cryptex/public/exchange_common.py:11-16 | the key set is exactly the set of lowercased currencies of the markets |
| MarketLookup.LookupEntries | cryptex/public/exchange_common.py:11-16 | entry (x, y) exists exactly when some market joins x and y (in either order), and holds the last such market |
| MarketLookup.LookupHoldsLastMarket | cryptex/public/exchange_common.py:14-16 | a market that no later market overwrites is stored under both (a, b) and (b, a) |
| MarketLookup.LookupSymmetric | cryptex/public/exchange_common.py:14-16 | lookup[x][y] exists exactly when lookup[y][x] does, and they hold the same market |
| MarketLookup.FillLookup | cryptex/public/exchange_common.py:11-16 | the loop over the markets builds exactly the specified table |
| MarketLookup.BuildLookup | cryptex/public/exchange_common.py:10-16 | the table `_make_market_lookup` builds; its keys are exactly the lowercased currencies of the markets |
| MarketLookup.QueryPair | cryptex/public/exchange_common.py:29-32 | a two-currency query returns the last market joining them, and None exactly when no market joins them |
| MarketLookup.QueryOne | cryptex/public/exchange_common.py:26-27 | a one-currency query returns the markets stored under it, exactly when it is a lowercased currency of some market |
| MarketLookup.QueryUpperCaseMisses | cryptex/public/exchange_common.py:22-32 | queries are not lowercased: one with an upper-case letter returns None |
| MarketLookup.Query | cryptex/public/exchange_common.py:26-32 | with no second currency and a known first one, the values of its row; with a second currency present in the first's row, that one market; otherwise None |
| ExchangeCommon.PublicCommon.constructor | cryptex/public/exchange_common.py:4-8 | starts with the given markets and no table |
| ExchangeCommon.PublicCommon.MakeMarketLookup | cryptex/public/exchange_common.py:10-16 | sets the table to the one built from the markets |
| ExchangeCommon.PublicCommon.GetMarkets | cryptex/public/exchange_common.py:18-20 | rebuilds the table on every call and returns the markets unchanged |
| ExchangeCommon.PublicCommon.LookupMarkets | cryptex/public/exchange_common.py:22-32 | builds the table on the first query only, changes nothing afterwards, and answers as the table query |
| BtceExchange.PairToMarket | cryptex/exchange/btce.py:19-20 | the pieces contain no '_' and no lower-case letter, and joined with '_' they give the uppercased pair |
| BtceExchange.MarketToPair | cryptex/exchange/btce.py:23-24 | the pair string is lower-case and contains '_'; when neither code contains '_', it splits on '_' into the two lowercased codes |
| BtceExchange.MarketRoundTrip | cryptex/exchange/btce.py:19-24 | a market of two upper-case codes without '_' survives market → pair → market |
| BtceExchange.PairRoundTrip | cryptex/exchange/btce.py:19-24 | a lower-case pair with exactly one '_' survives pair → market → pair |
| BtceExchange.PairsToMarkets | cryptex/exchange/btce.py:167-171 | converts every listed pair, position by position |
| BtceExchange.PairWithSeparatorHasTwoCodes | cryptex/exchange/btce.py:19-20 | a pair containing '_' gives a market of at least two codes |
| BtceExchange.BuildParams | cryptex/exchange/btce.py:42-49 | raises ValueError exactly for limit > 2000; otherwise sends `limit` exactly when it is non-zero, `ignore_invalid=1` exactly when asked, and nothing else |
| BtceExchange.InfoPathNamesMarkets | cryptex/exchange/btce.py:51 | for a method without '/' and a non-empty list of pair strings holding neither '-' nor '/', the request path splits on '/' into the method and the '-'-joined pairs, which split back into the requested pairs |
| BtceExchange.InfoPath | cryptex/exchange/btce.py:51 | the request path is the method, then '/', then the pair strings joined by '-' |
| BtceExchange.GetMarketInfo | cryptex/exchange/btce.py:37-52 | the same error and parameters; the path is method/pairs; the answer keeps exactly the keys that were requested, with their values |
| BtceExchange.TickerAsWritten | cryptex/exchange/btce.py:65-80 | as written, `ignore_invalid=1` is always sent and a limit is sent whenever the caller asked for ignore_invalid |
| BtceExchange.Ticker | cryptex/exchange/btce.py:65-80 | passed by name, no limit is sent and `ignore_invalid=1` is sent exactly when asked |
| BtceExchange.FormatTrade | cryptex/exchange/btce.py:117-134 | fails to unpack unless the pair has two pieces; base and counter are the uppercased pieces; 'buy' gives Buy and anything else Sell; ids, time, amount and rate are carried over |
| BtceExchange.FormatTradeOfMarket | cryptex/exchange/btce.py:117-134 | a trade reported for the pair string of a two-code market, whose codes hold neither '_' nor a lower-case letter, is booked on that market |
| BtceExchange.WithdrawalAddress | cryptex/exchange/btce.py:203-207 | with the marker first at i > 0 the address is the text after it; at index 0 it is ''; when absent it is `desc[7:]` |
| BtceExchange.AddressAfterText | cryptex/exchange/btce.py:203-207 | "to address 1Kx9" yields "1Kx9" |
| BtceExchange.AddressAtStartIsLost | cryptex/exchange/btce.py:203-207 | "address 1Kx9" yields '' |
| BtceExchange.AddressWithoutMarker | cryptex/exchange/btce.py:203-207 | "sent out 1Kx9" yields "t 1Kx9" |
| BtceExchange.ClassifyTx | cryptex/exchange/btce.py:193-214 | type 1 becomes a Deposit with address '' and fee 0, type 2 a Withdrawal with the parsed address and no fee, any other type is dropped; id, time, currency and amount are carried over |
| BtceExchange.GetMyTransactions | cryptex/exchange/btce.py:190-215 | the append loop yields the classification of every entry in order, dropped ones left out |
| BtceExchange.TransactionsAreClassified | cryptex/exchange/btce.py:190-215 | every result is a fee-free deposit without address or a withdrawal without fee, and comes from an entry of type 1 or 2; every such entry is reported |
| BtceExchange.OtherTypesAreDropped | cryptex/exchange/btce.py:190-215 | no entry is lost exactly when every entry has type 1 or 2 |
| BtceExchange.GetMyFunds | cryptex/exchange/btce.py:217-221 | the loop fills the dict with every uppercased currency code and its amount, later codes overwriting earlier ones |
| BtceExchange.FundsAreKeyedByUpperCode | cryptex/exchange/btce.py:217-221 | the keys are exactly the uppercased codes, and a code not repeated later keeps its amount unchanged |
| BtceExchange.FundsValuesAreReported | cryptex/exchange/btce.py:217-221 | every stored amount is that of an entry whose code uppercases to the key |
| CryptsyExchange.CurrencyMapOf | cryptex/exchange/cryptsy.py:103-107 | the map's keys are exactly the market ids of the answer |
| CryptsyExchange.CurrencyMapEntries | cryptex/exchange/cryptsy.py:103-107 | an id maps to the (primary, secondary) pair of its last record, and every stored pair belongs to a record with that id |
| CryptsyExchange.MarketIdIn | cryptex/exchange/cryptsy.py:118-125 | an id that is a key comes back unchanged; a pair gives an id stored with that pair; anything else is 'Market not found' |
| CryptsyExchange.CurrenciesOf | cryptex/exchange/cryptsy.py:110-116 | succeeds exactly for a known id or a stored pair; a pair gives back that pair |
| CryptsyExchange.CurrenciesOfResolvedId | cryptex/exchange/cryptsy.py:110-116 | `_get_currencies(x)` is `map[_get_market_id(x)]` whichever id is picked, and both fail together |
| CryptsyExchange.FormatTradeWith | cryptex/exchange/cryptsy.py:133-152 | fails exactly for an unknown market id; base and counter are the id's currencies; the fee currency is always the counter; 'Buy' gives Buy and anything else Sell |
| CryptsyExchange.FormatAll | cryptex/exchange/cryptsy.py:164 | formats every trade, position by position, and fails exactly when some trade's market is unknown |
| CryptsyExchange.TagTrades | cryptex/exchange/cryptsy.py:161-163 | the indexed in-place loop sets the market id of every trade and changes nothing else |
| CryptsyExchange.ClassifyTx | cryptex/exchange/cryptsy.py:235-251 | 'Withdrawal' becomes a Withdrawal, a 'Deposit' in 'Points' an unclassified transaction, any other 'Deposit' a Deposit, other types are dropped; fields are carried over |
| CryptsyExchange.GetMyTransactions | cryptex/exchange/cryptsy.py:232-252 | the append loop yields the classification of every entry in order |
| CryptsyExchange.TransactionsAreClassified | cryptex/exchange/cryptsy.py:232-252 | no reported deposit is in Points; the results are exactly the images of withdrawal and deposit entries |
| CryptsyExchange.Cryptsy.constructor | cryptex/exchange/cryptsy.py:86-89 | starts with no cached map and no request made |
| CryptsyExchange.Cryptsy.GetMarketCurrencyMap | cryptex/exchange/cryptsy.py:100-108 | returns the map built from `getmarkets`; the request is made once, and later calls change nothing |
| CryptsyExchange.Cryptsy.GetMarketId | cryptex/exchange/cryptsy.py:118-125 | resolves against the cached map as MarketIdIn does |
| CryptsyExchange.Cryptsy.GetCurrencies | cryptex/exchange/cryptsy.py:110-116 | equals CurrenciesOf on the cached map |
| CryptsyExchange.Cryptsy.GetMyTrades | cryptex/exchange/cryptsy.py:154-164 | without a market, formats `allmytrades`, and an empty answer makes no `getmarkets` request and changes nothing; with one, fails when the market is unknown; otherwise it succeeds and returns, position by position, every trade of the `mytrades` answer for an id the market resolves to, tagged with that id and formatted, so booked on that market's currencies |
| PublicBtce.PairsGiveMarkets | cryptex/public/btce.py:107-110 | when every pair of the info answer holds '_', every pair gives a market of at least two codes |
| PublicBtce.PairStrings | cryptex/public/btce.py:28 | converts every market to its pair string, position by position |
| PublicBtce.PairComponentEmpty | cryptex/public/btce.py:29 | the '-'-joined component is empty exactly when no market is given |
| PublicBtce.PerformRequest | cryptex/public/btce.py:22-42 | raises ValueError exactly for limit > 2000; the parameters are as in `_get_market_info`; the URL is the root plus the method, plus "/" and the pairs only when markets are given |
| PublicBtce.RequestNamesMarkets | cryptex/public/btce.py:28-29 | for at least one market, each of two codes holding no '_', no '-' and no lower-case letter, splitting the URL's pair component on '-' and converting each piece gives back every requested market |
| PublicBtce.LastTradePrices | cryptex/public/btce.py:76-82 | the keys are exactly the `to_tuple` markets of the ticker keys |
| PublicBtce.LastTradePriceKey | cryptex/public/btce.py:76-82 | a ticker key "a_b" of two codes without '_' or upper-case letters becomes the key (A, B), which `market_to_pair` turns back into "a_b"; when no later ticker key names the same market, that key holds the entry's last price |
| PublicBtce.BtcePublic.constructor | cryptex/public/btce.py:18-20 | starts with neither markets nor table |
| PublicBtce.BtcePublic.GetMarkets | cryptex/public/btce.py:105-119 | the markets and the table are computed once, from the info pairs; later calls change nothing and return the cached list |
| PublicBtce.BtcePublic.MarketWithCurrencies | cryptex/public/btce.py:121-131 | builds the caches if needed and answers as the table query on the markets of the info answer |
| PublicBtce.BtcePublic.GetLastTradePrices | cryptex/public/btce.py:75-82 | requests the ticker for every info market, without limit or ignore_invalid, and keys the prices by market |

## Findings

| source | as written | input that shows it | evidently intended | confidence | as-written member | corrected member |
|---|---|---|---|---|---|---|
| cryptex/exchange/btce.py:74 | `get_ticker` passes its `ignore_invalid` flag positionally, into the `limit` parameter of `_get_market_info`; `ignore_invalid` there keeps its default True | `get_ticker(markets, ignore_invalid=False)` still sends `ignore_invalid=1`; `get_ticker(markets)` also sends `limit=True` | pass the flag by name, so that no limit is sent and `ignore_invalid=1` is sent only when asked | high (not executed) | BtceExchange.TickerAsWritten | BtceExchange.Ticker |

## Left out

- HTTP transport and request signing (`cryptex/exchange/single_endpoint.py`, HMAC-SHA512, nonces from `time.time()`, `requests`, JSON decoding) are foreign calls. Every server answer is a parameter instead.
- Timestamp and time-zone conversion (`_format_timestamp`, `_convert_datetime`, `_get_timezone`) rely on pytz and strptime. Times are integers. The timestamp rewriting loops of `get_ticker` and `get_trades` are left out with them.
- The websocket clients (`cryptex/soxex`), the polling generator (`cryptsy/__init__.py`), the older adapters, the abstract exchange interfaces and the tests are not part of this model.
- Endpoint wrappers that only forward to `perform_request` are not modelled: orders, `buy`/`sell`/`cancel_order`, `get_info`, `get_depth`, `get_trades`, Cryptsy's public market data, and BTC-e's 'no orders' → `{}` mapping.
- The comprehension of `BTCE.get_my_trades` is not modelled; `BtceExchange.FormatTrade` models each entry.
- Decimal arithmetic in the lot reduction is exact: the 28-digit context rounding of additions is not modelled.
- Case mapping is ASCII only. Python's `upper`/`lower` also map non-ASCII letters.
- `urljoin(URL_ROOT, method)` is modelled as concatenation. That is what it gives for the method names the source uses (info, ticker, depth, trades), not for names such as ".", ".." or ones holding '/', ':', '?' or '#'.
- PublicBtce.BtcePublic.GetLastTradePrices takes the markets from the `info` pairs the object was built with. `get_last_trade_prices` makes its own `get_info()` request.
- The `limit` parameter of Cryptsy `get_my_trades` and the `limit` argument of BTC-e `get_my_transactions`, sent as `count`, only go into the request. The answers are parameters here, so both are dropped.
- Dict iteration order is unspecified in the source. Answers are given as entry sequences in that order.
- MarketLookup.Query: the list of markets stored under one currency is a set, because its order is the dict's.
- CryptsyExchange.MarketIdIn: when several ids share a pair, which id is returned is left open. The source takes the first in the dict's order.
- MarketLookup.BuildLookup, BtceExchange.MarketToPair and PublicBtce.PerformRequest require every market to have at least two components. The source raises IndexError otherwise.
- PublicBtce.BtcePublic.constructor requires every `info` pair to contain '_', so that its markets have two components. The source would raise IndexError while building the table.
- ExchangeCommon.PublicCommon.constructor: the source starts with `markets = None` for a subclass to fill, and prints 'ding'. The model takes the markets as a constructor argument.
- Common.Quantize: only the coefficient-overflow cause of InvalidOperation is modelled. NaN and infinite inputs do not exist among reals.
