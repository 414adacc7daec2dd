/** The record classes every adapter produces: a trade fill (cryptex/trade.py,
    whose Buy and Sell classes are a side tag here) and a cash movement
    (cryptex/transaction.py, whose Deposit, Withdrawal and plain Transaction
    classes are a kind tag here). Timestamps are integers; the time-zone
    conversion that produces them is not part of this model. */
module Records {
  import opened Wrappers

  /** A market: the tuple of currency codes, base first, counter second. */
  type Market = seq<string>

  datatype Side = Buy | Sell

  datatype Trade = Trade(
    tradeId: Option<string>,
    side: Side,
    base: string,
    counter: string,
    time: int,
    orderId: Option<string>,
    amount: real,
    price: real,
    fee: Option<real>,
    feeCurrency: Option<string>)

  datatype TxKind = Deposit | Withdrawal | Unclassified

  datatype Transaction = Transaction(
    kind: TxKind,
    transactionId: string,
    time: int,
    currency: string,
    amount: real,
    address: string,
    fee: Option<real>)
}
