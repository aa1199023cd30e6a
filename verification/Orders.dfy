/** The values that travel between the three processes: orders, trade records, messages. */
module Orders {
  import opened Fees

  datatype Option<+T> = None | Some(value: T)

  datatype Side = BUY | SELL | UNKNOWN

  /** price, quantity, feeRate and filled are in millionths. The status, order type and
      time fields of the source never influence matching and are left out. */
  datatype Order = Order(orderId: nat, userId: nat, side: Side, price: int,
                         quantity: int, feeRate: int, filled: int)
  {
    /// Anything that is not BUY takes the sell path.
    predicate Buys() { side.BUY? }

    function Remaining(): int { quantity - filled }

    predicate WellFormed() { 0 < quantity && 0 <= filled <= quantity }

    predicate Open() { 0 <= filled < quantity }
  }

  /** The buyer/seller slots of the source hold taker and maker, whatever their sides. */
  datatype TradeRecord = TradeRecord(takerUser: nat, makerUser: nat,
                                     takerId: nat, makerId: nat, takerSide: Side,
                                     price: int, quantity: int,
                                     takerFee: int, makerFee: int)

  datatype Message =
    | UnmatchedOrder(order: Order)
    | Trade(taker: Order, maker: Order, record: TradeRecord)

  datatype Execution = Execution(taker: Order, maker: Order, record: TradeRecord)
  {
    function Report(): Message { Trade(taker, maker, record) }
  }

  function Min(a: int, b: int): int { if a <= b then a else b }

  function CreateTradeRecord(taker: Order, maker: Order, quantity: int, price: int): TradeRecord {
    TradeRecord(taker.userId, maker.userId, taker.orderId, maker.orderId, taker.side,
                price, quantity,
                Fee(taker.feeRate, quantity, price), Fee(maker.feeRate, quantity, price))
  }

  /** One trade: both orders gain the same positive quantity, neither is overfilled, at
      least one of them is completed, and the price is the maker's. */
  function Execute(taker: Order, maker: Order): (x: Execution)
    requires taker.Open() && maker.Open()
    ensures x.taker == taker.(filled := taker.filled + x.record.quantity)
    ensures x.maker == maker.(filled := maker.filled + x.record.quantity)
    ensures x.taker.WellFormed() && x.maker.WellFormed()
    ensures 0 < x.record.quantity
    ensures x.taker.Remaining() == 0 || x.maker.Remaining() == 0
    ensures x.record.price == maker.price
    ensures x.record.takerId == taker.orderId && x.record.makerId == maker.orderId
    ensures x.record.takerUser == taker.userId && x.record.makerUser == maker.userId
    ensures x.record.takerSide == taker.side
    ensures var exact := taker.feeRate * x.record.quantity * x.record.price;
            -5_000_000_000 <= x.record.takerFee * 10_000_000_000 - exact <= 5_000_000_000
    ensures var exact := maker.feeRate * x.record.quantity * x.record.price;
            -5_000_000_000 <= x.record.makerFee * 10_000_000_000 - exact <= 5_000_000_000
  {
    var quantity := Min(taker.Remaining(), maker.Remaining());
    var t := taker.(filled := taker.filled + quantity);
    var m := maker.(filled := maker.filled + quantity);
    Execution(t, m, CreateTradeRecord(t, m, quantity, maker.price))
  }
}
