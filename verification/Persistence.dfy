/** The persistence worker and the database it writes: each message becomes a sequence of
    statements, proved to be Tables.Apply. */
module Persistence {
  import opened Fees
  import opened Orders
  import opened Tables

  class Database {
    var orders: map<nat, Row>
    var trades: seq<TradeRecord>

    ghost function Contents(): Tables
      reads this
    {
      Tables(orders, trades)
    }

    constructor ()
      ensures Contents() == Tables(map[], [])
    {
      orders, trades := map[], [];
    }

    /// UPDATE orders SET status, filled_quantity WHERE order_id = id
    method UpdateOrder(id: nat, status: Status, filled: int)
      modifies this`orders
      ensures id !in old(orders) ==> orders == old(orders)
      ensures id in old(orders) ==>
                orders == old(orders)[id := Row(old(orders)[id].order.(filled := filled), status)]
    {
      if id in orders {
        orders := orders[id := Row(orders[id].order.(filled := filled), status)];
      }
    }

    /// INSERT INTO trade_records; the fees arrive as text.
    method InsertTrade(trade: TradeRecord)
      modifies this`trades
      ensures trades == old(trades) + [TradeRow(trade)]
    {
      var takerFee, makerFee := StoredFee(trade.takerFee), StoredFee(trade.makerFee);
      trades := trades + [trade.(takerFee := takerFee, makerFee := makerFee)];
    }

    /// INSERT INTO orders; false when the primary key exists.
    method InsertOrder(row: Row) returns (ok: bool)
      modifies this`orders
      ensures ok <==> row.order.orderId !in old(orders)
      ensures orders == if ok then old(orders)[row.order.orderId := row] else old(orders)
    {
      ok := row.order.orderId !in orders;
      if ok {
        orders := orders[row.order.orderId := row];
      }
    }
  }

  class PersistenceProgram {
    const db: Database

    constructor (db: Database)
      ensures this.db == db
    {
      this.db := db;
    }

    method ProcessOrder(order: Order)
      modifies db`orders
      ensures db.orders == UpdateRow(old(db.orders), order)
      ensures db.orders.Keys == old(db.orders.Keys)
      ensures forall id | id in db.orders ::
                if id != order.orderId then db.orders[id] == old(db.orders)[id]
                else
                  && db.orders[id].order == old(db.orders)[id].order.(filled := order.filled)
                  && (db.orders[id].status == FULLY_FILLED <==> order.quantity <= order.filled)
                  && (db.orders[id].status == PARTIALLY_FILLED <==> 0 < order.filled < order.quantity)
                  && (db.orders[id].status == MATCHING <==> order.filled <= 0 && order.filled < order.quantity)
    {
      var status := MATCHING;
      if order.filled >= order.quantity {
        status := FULLY_FILLED;
      } else if order.filled > 0 {
        status := PARTIALLY_FILLED;
      }
      db.UpdateOrder(order.orderId, status, order.filled);
    }

    method ProcessTradeRecord(trade: TradeRecord)
      modifies db`trades
      ensures db.trades == old(db.trades) + [TradeRow(trade)]
      ensures var row := db.trades[|old(db.trades)|];
              && row.takerUser == trade.takerUser && row.makerUser == trade.makerUser
              && row.takerId == trade.takerId && row.makerId == trade.makerId
              && row.takerSide == trade.takerSide
              && row.price == trade.price && row.quantity == trade.quantity
              && row.takerFee % 100 == 0 && -50 <= row.takerFee - trade.takerFee <= 50
              && row.makerFee % 100 == 0 && -50 <= row.makerFee - trade.makerFee <= 50
    {
      db.InsertTrade(trade);
      TradeRowExactly(trade);
    }

    method ProcessUnmatchedOrderMessage(order: Order)
      modifies db
      ensures db.Contents() == Apply(old(db.Contents()), UnmatchedOrder(order))
    {
      ProcessOrder(order);
    }

    /// One transaction: both orders, then the trade record.
    method ProcessTradeMessage(taker: Order, maker: Order, trade: TradeRecord)
      modifies db
      ensures db.Contents() == Apply(old(db.Contents()), Trade(taker, maker, trade))
    {
      ProcessOrder(taker);
      ProcessOrder(maker);
      ProcessTradeRecord(trade);
    }

    method ProcessMessage(message: Message)
      modifies db
      ensures db.Contents() == Apply(old(db.Contents()), message)
    {
      match message
      case Trade(taker, maker, record) => ProcessTradeMessage(taker, maker, record);
      case UnmatchedOrder(order) => ProcessUnmatchedOrderMessage(order);
    }

    /** The receive loop over a log of results. */
    method Run(log: seq<Message>)
      modifies db
      ensures db.Contents() == ApplyAll(old(db.Contents()), log)
    {
      var n := 0;
      while n < |log|
        invariant 0 <= n <= |log|
        invariant ApplyAll(db.Contents(), log[n..]) == ApplyAll(old(db.Contents()), log)
      {
        assert log[n..][1..] == log[n + 1..];
        ProcessMessage(log[n]);
        n := n + 1;
      }
    }
  }
}
