/** The order generator: it resends every open row, takes the counter from the stored maximum,
    and then submits new orders, row first and queue second. */
module Generator {
  import opened Fees
  import opened Orders
  import opened OrderedKeys
  import opened Tables
  import opened Persistence

  /// The tables after the rows of some new orders have been inserted.
  function InsertAll(t: Tables, rs: seq<Request>): Tables
    decreases |rs|
  {
    if rs == [] then t
    else InsertAll(InsertRow(t, NewOrder(MaxOrderId(t) + 1, rs[0])), rs[1..])
  }

  /// The orders sent for some requests when the counter stands at id.
  function NewOrders(id: nat, rs: seq<Request>): seq<Order>
    decreases |rs|
  {
    if rs == [] then [] else [NewOrder(id + 1, rs[0])] + NewOrders(id + 1, rs[1..])
  }

  /** What a batch sends while the counter does not wrap: the requests in order, each with the next
      id, which is also its user id, and no fill. */
  lemma {:induction false} NewOrdersExactly(id: nat, rs: seq<Request>)
    ensures |NewOrders(id, rs)| == |rs|
    ensures forall i | 0 <= i < |rs| ::
              NewOrders(id, rs)[i] ==
              Order(id + 1 + i, id + 1 + i, if rs[i].buys then BUY else SELL,
                    rs[i].price, rs[i].quantity, rs[i].feeRate, 0)
    decreases |rs|
  {
    if rs != [] {
      NewOrdersExactly(id + 1, rs[1..]);
    }
  }

  /// The row of a new order: INITIAL, with the rate rounded to four decimals.
  predicate NewRow(rows: map<nat, Row>, o: Order) {
    && o.orderId in rows
    && var row := rows[o.orderId];
       && row.status == INITIAL && row.order == o.(feeRate := row.order.feeRate)
       && row.order.feeRate % 100 == 0 && -50 <= row.order.feeRate - o.feeRate <= 50
  }

  lemma {:induction false} InsertAllKeeps(t: Tables, rs: seq<Request>)
    ensures var u := InsertAll(t, rs);
            && u.trades == t.trades
            && (forall id | id in t.orders :: id in u.orders && u.orders[id] == t.orders[id])
            && (forall id | id in u.orders ::
                  id in t.orders || MaxOrderId(t) < id <= MaxOrderId(t) + |rs|)
    decreases |rs|
  {
    hide MaxOrderId, InsertRow;
    if rs != [] {
      var o := NewOrder(MaxOrderId(t) + 1, rs[0]);
      InsertedIsMax(t, rs[0]);
      InsertRowExactly(t, o);
      InsertAllKeeps(InsertRow(t, o), rs[1..]);
    }
  }

  lemma InsertedNewRow(t: Tables, o: Order)
    requires o.orderId !in t.orders
    ensures NewRow(InsertRow(t, o).orders, o)
  {
    InsertRowExactly(t, o);
  }

  lemma NewRowStays(rows: map<nat, Row>, more: map<nat, Row>, o: Order)
    requires NewRow(rows, o) && o.orderId in more && more[o.orderId] == rows[o.orderId]
    ensures NewRow(more, o)
  {
  }

  lemma {:induction false} InsertAllRows(t: Tables, rs: seq<Request>)
    ensures forall o | o in NewOrders(MaxOrderId(t), rs) :: NewRow(InsertAll(t, rs).orders, o)
    decreases |rs|
  {
    hide MaxOrderId, InsertRow, NewRow;
    if rs != [] {
      var top, rest := MaxOrderId(t), rs[1..];
      var o := NewOrder(top + 1, rs[0]);
      var v := InsertRow(t, o);
      InsertedIsMax(t, rs[0]);
      InsertedNewRow(t, o);
      InsertAllKeeps(v, rest);
      InsertAllRows(v, rest);
      NewRowStays(v.orders, InsertAll(t, rs).orders, o) by { InsertedId(t, o); }
      assert NewOrders(top, rs) == [o] + NewOrders(top + 1, rest);
    }
  }

  lemma InsertedId(t: Tables, o: Order)
    ensures o.orderId in InsertRow(t, o).orders
  {
  }

  /// Row id is the INITIAL row of request r, the rate rounded to four decimals.
  predicate SubmittedRow(rows: map<nat, Row>, id: nat, r: Request) {
    && id in rows
    && var row := rows[id];
       && row.status == INITIAL
       && row.order == Order(id, id, if r.buys then BUY else SELL, r.price, r.quantity, row.order.feeRate, 0)
       && row.order.feeRate % 100 == 0 && -50 <= row.order.feeRate - r.feeRate <= 50
  }

  /** What a batch leaves in the tables: with ids counting up from the largest one, an INITIAL row
      for each request; everything else stays as it was. */
  lemma InsertAllExactly(t: Tables, rs: seq<Request>)
    ensures var u, top := InsertAll(t, rs), MaxOrderId(t);
            && u.trades == t.trades
            && (forall id | id in t.orders :: id in u.orders && u.orders[id] == t.orders[id])
            && (forall id | id in u.orders :: id in t.orders || top < id <= top + |rs|)
            && (forall i | 0 <= i < |rs| :: SubmittedRow(u.orders, top + 1 + i, rs[i]))
  {
    hide InsertAll, NewOrders, MaxOrderId, SubmittedRow, NewRow;
    InsertAllKeeps(t, rs);
    InsertAllRows(t, rs);
    var u, top := InsertAll(t, rs), MaxOrderId(t);
    NewOrdersExactly(top, rs);
    forall i | 0 <= i < |rs| ensures SubmittedRow(u.orders, top + 1 + i, rs[i]) {
      assert NewOrders(top, rs)[i] in NewOrders(top, rs);
      NewRowIs(u.orders, top + 1 + i, rs[i]);
    }
  }

  lemma NewRowIs(rows: map<nat, Row>, id: nat, r: Request)
    requires NewRow(rows, Order(id, id, if r.buys then BUY else SELL, r.price, r.quantity, r.feeRate, 0))
    ensures SubmittedRow(rows, id, r)
  {
  }

  // ---- the 32-bit counter ----

  /// ++orderIdCounter on an unsigned int.
  function Succ(counter: nat): nat { (counter + 1) % 0x1_0000_0000 }

  /// The tables and the orders sent when the counter stands at `counter`, wrap-around included.
  function InsertFrom(t: Tables, counter: nat, rs: seq<Request>): Tables
    decreases |rs|
  {
    if rs == [] then t
    else InsertFrom(InsertRow(t, NewOrder(Succ(counter), rs[0])), Succ(counter), rs[1..])
  }

  function SentFrom(counter: nat, rs: seq<Request>): seq<Order>
    decreases |rs|
  {
    if rs == [] then [] else [NewOrder(Succ(counter), rs[0])] + SentFrom(Succ(counter), rs[1..])
  }

  /// The counter after some orders.
  function CounterFrom(counter: nat, n: nat): nat
    decreases n
  {
    if n == 0 then counter else CounterFrom(Succ(counter), n - 1)
  }

  /** While the counter does not wrap, every new row gets an id above all the others. */
  lemma {:induction false} NoWrap(t: Tables, rs: seq<Request>)
    requires MaxOrderId(t) + |rs| < 0x1_0000_0000
    ensures InsertFrom(t, MaxOrderId(t), rs) == InsertAll(t, rs)
    ensures SentFrom(MaxOrderId(t), rs) == NewOrders(MaxOrderId(t), rs)
    ensures CounterFrom(MaxOrderId(t), |rs|) == MaxOrderId(InsertAll(t, rs))
    decreases |rs|
  {
    hide MaxOrderId, InsertRow;
    if rs != [] {
      InsertedIsMax(t, rs[0]);
      NoWrap(InsertRow(t, NewOrder(MaxOrderId(t) + 1, rs[0])), rs[1..]);
    }
  }

  /** What a batch sends: the requests in order, the ids counting up from the counter and on from
      zero after 2^32 - 1. */
  lemma {:induction false} SentIds(counter: nat, rs: seq<Request>)
    requires counter < 0x1_0000_0000 && |rs| < 0x1_0000_0000
    ensures |SentFrom(counter, rs)| == |rs|
    ensures forall i | 0 <= i < |rs| ::
              SentFrom(counter, rs)[i] ==
              NewOrder(if counter + 1 + i < 0x1_0000_0000 then counter + 1 + i
                       else counter + 1 + i - 0x1_0000_0000, rs[i])
    decreases |rs|
  {
    if rs != [] {
      SentIds(Succ(counter), rs[1..]);
    }
  }

  /** The ids of a batch rise above the stored maximum if and only if the counter does not wrap. */
  lemma IdsRise(counter: nat, rs: seq<Request>)
    requires counter < 0x1_0000_0000 && |rs| < 0x1_0000_0000
    ensures |SentFrom(counter, rs)| == |rs|
    ensures (forall i | 0 <= i < |rs| :: counter < SentFrom(counter, rs)[i].orderId) <==>
            counter + |rs| < 0x1_0000_0000
  {
    SentIds(counter, rs);
    if counter + |rs| >= 0x1_0000_0000 {
      assert SentFrom(counter, rs)[0x1_0000_0000 - counter - 1].orderId == 0;
    }
  }

  lemma Moved(start: seq<Order>, sent: seq<Order>, order: Order, later: seq<Order>)
    ensures start + sent + [order] == start + (sent + [order])
    ensures sent + ([order] + later) == (sent + [order]) + later
  {
  }

  /// What the reload query returns.
  lemma SelectedRows(t: Tables, ids: seq<nat>)
    requires Selection(t, ids)
    ensures |RowsOf(t, ids)| == |ids| && forall i | 0 <= i < |ids| ::
              && ids[i] in t.orders && RowsOf(t, ids)[i] == t.orders[ids[i]].order
              && t.orders[ids[i]].status in {INITIAL, MATCHING, PARTIALLY_FILLED}
    ensures forall id | id in t.orders ::
              t.orders[id].status in {INITIAL, MATCHING, PARTIALLY_FILLED} ==> id in ids
  {
    forall i | 0 <= i < |ids| ensures ids[i] in OpenRows(t) {
      assert ids[i] in ids;
    }
    forall id | id in t.orders && Selected(t.orders[id]) ensures id in ids {
      assert id in OpenRows(t);
    }
  }

  class OrderGenerator {
    const db: Database
    var orderIdCounter: nat
    var orderQueue: seq<Order>

    constructor (db: Database)
      ensures this.db == db && orderIdCounter == 10000 && orderQueue == []
    {
      this.db := db;
      orderIdCounter, orderQueue := 10000, [];
    }

    method WriteOrderToDatabase(order: Order)
      modifies db`orders
      ensures db.Contents() == InsertRow(old(db.Contents()), order)
      ensures order.orderId in old(db.orders) ==> db.orders == old(db.orders)
      ensures order.orderId !in old(db.orders) ==>
                && db.orders.Keys == old(db.orders.Keys) + {order.orderId}
                && (forall id | id in old(db.orders) :: db.orders[id] == old(db.orders)[id])
                && var row := db.orders[order.orderId];
                   && row.status == INITIAL
                   && row.order == order.(feeRate := row.order.feeRate)
                   && row.order.feeRate % 100 == 0 && -50 <= row.order.feeRate - order.feeRate <= 50
    {
      InsertRowExactly(db.Contents(), order);
      var inserted := db.InsertOrder(Row(order.(feeRate := StoredRate(order.feeRate)), INITIAL));
    }

    /** Row first, then queue; a resent order has its row already. */
    method SendOrder(order: Order, isUpdate: bool)
      modifies this`orderQueue, db`orders
      ensures db.Contents() == if isUpdate then old(db.Contents()) else InsertRow(old(db.Contents()), order)
      ensures orderQueue == old(orderQueue) + [order]
    {
      if !isUpdate {
        WriteOrderToDatabase(order);
      }
      orderQueue := orderQueue + [order];
    }

    /** Resends the open rows, in the order in which the query returns them, and leaves the
        tables alone. */
    method LoadOrdersFromDatabase(ids: seq<nat>)
      requires Selection(db.Contents(), ids)
      modifies this`orderQueue, db`orders
      ensures db.Contents() == old(db.Contents())
      ensures orderQueue == old(orderQueue) + RowsOf(old(db.Contents()), ids)
      ensures |orderQueue| == |old(orderQueue)| + |ids| && forall i | 0 <= i < |ids| ::
                && ids[i] in old(db.orders)
                && orderQueue[|old(orderQueue)| + i] == old(db.orders)[ids[i]].order
                && old(db.orders)[ids[i]].status in {INITIAL, MATCHING, PARTIALLY_FILLED}
      ensures forall id | id in old(db.orders) ::
                old(db.orders)[id].status in {INITIAL, MATCHING, PARTIALLY_FILLED} ==> id in ids
    {
      hide Selection, RowsOf;
      ghost var rows := RowsOf(db.Contents(), ids);
      SelectedRows(db.Contents(), ids);
      var n := 0;
      while n < |ids|
        invariant 0 <= n <= |ids|
        invariant db.Contents() == old(db.Contents())
        invariant orderQueue == old(orderQueue) + rows[..n]
      {
        SendOrder(db.orders[ids[n]].order, true);
        n := n + 1;
      }
    }

    /// The stored maximum as an unsigned int.
    method GetMaxOrderId() returns (id: nat)
      ensures id == MaxOrderId(db.Contents()) % 0x1_0000_0000
    {
      if db.orders == map[] {
        return 10000;
      }
      var max: nat := Greatest(db.orders.Keys);
      id := max % 0x1_0000_0000;
    }

    method CreateRandomOrder(request: Request) returns (order: Order)
      modifies this`orderIdCounter
      ensures orderIdCounter == Succ(old(orderIdCounter))
      ensures order == NewOrder(orderIdCounter, request)
      ensures order.orderId == order.userId == orderIdCounter == (old(orderIdCounter) + 1) % 0x1_0000_0000
      ensures order.side == (if request.buys then BUY else SELL) && order.filled == 0
      ensures order.price == request.price && order.quantity == request.quantity
      ensures order.feeRate == request.feeRate
    {
      orderIdCounter := (orderIdCounter + 1) % 0x1_0000_0000;
      order := Order(orderIdCounter, orderIdCounter, if request.buys then BUY else SELL,
                     request.price, request.quantity, request.feeRate, 0);
    }

    /** A whole start of the generator. The counter restarts from the stored maximum; unless it
        wraps, the new ids lie above every id in the table and rise with submission. */
    method GenerateOrders(ids: seq<nat>, requests: seq<Request>)
      requires Selection(db.Contents(), ids)
      modifies this, db`orders
      ensures var t, counter := old(db.Contents()), MaxOrderId(old(db.Contents())) % 0x1_0000_0000;
              && db.Contents() == InsertFrom(t, counter, requests)
              && orderQueue == old(orderQueue) + RowsOf(t, ids) + SentFrom(counter, requests)
              && orderIdCounter == CounterFrom(counter, |requests|)
      ensures var t := old(db.Contents());
              MaxOrderId(t) + |requests| < 0x1_0000_0000 ==>
                && db.Contents() == InsertAll(t, requests)
                && orderQueue == old(orderQueue) + RowsOf(t, ids) + NewOrders(MaxOrderId(t), requests)
                && orderIdCounter == MaxOrderId(db.Contents())
    {
      hide MaxOrderId, InsertRow, RowsOf, Succ;
      LoadOrdersFromDatabase(ids);
      orderIdCounter := GetMaxOrderId();
      ghost var t, start, counter := old(db.Contents()), orderQueue, orderIdCounter;
      ghost var sent: seq<Order> := [];
      var i := 0;
      while i < |requests|
        invariant 0 <= i <= |requests|
        invariant InsertFrom(db.Contents(), orderIdCounter, requests[i..]) == InsertFrom(t, counter, requests)
        invariant CounterFrom(orderIdCounter, |requests| - i) == CounterFrom(counter, |requests|)
        invariant orderQueue == start + sent
        invariant sent + SentFrom(orderIdCounter, requests[i..]) == SentFrom(counter, requests)
      {
        assert requests[i..][1..] == requests[i + 1..];
        ghost var later := SentFrom(Succ(orderIdCounter), requests[i + 1..]);
        var order := CreateRandomOrder(requests[i]);
        SendOrder(order, false);
        Moved(start, sent, order, later);
        sent := sent + [order];
        i := i + 1;
      }
      assert sent + [] == sent;
      if MaxOrderId(t) + |requests| < 0x1_0000_0000 {
        NoWrap(t, requests);
      }
    }
  }
}
