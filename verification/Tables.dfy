/** The orders and trade_records tables, and what a result message does to them. */
module Tables {
  import opened Fees
  import opened Orders
  import opened Matching
  import opened OrderedKeys

  /// The values of the status column.
  datatype Status = INITIAL | MATCHING | PARTIALLY_FILLED | FULLY_FILLED
                  | CANCELING | CANCELED | EXCEPTION

  datatype Row = Row(order: Order, status: Status)

  datatype Tables = Tables(orders: map<nat, Row>, trades: seq<TradeRecord>)

  // ---- persistence ----

  function StatusOf(o: Order): Status {
    if o.filled >= o.quantity then FULLY_FILLED
    else if o.filled > 0 then PARTIALLY_FILLED
    else MATCHING
  }

  /// UPDATE orders SET status, filled_quantity WHERE order_id: absolute values; an id
  /// without a row updates nothing.
  function UpdateRow(rows: map<nat, Row>, o: Order): map<nat, Row> {
    if o.orderId in rows
    then rows[o.orderId := Row(rows[o.orderId].order.(filled := o.filled), StatusOf(o))]
    else rows
  }

  /// The columns of a trade record; fees have been through their text form.
  function TradeRow(r: TradeRecord): TradeRecord {
    r.(takerFee := StoredFee(r.takerFee), makerFee := StoredFee(r.makerFee))
  }

  /** The row of a trade names the two users, orders, side, price and quantity of the record, and
      each slot's fee rounded to six decimals. */
  lemma TradeRowExactly(r: TradeRecord)
    ensures var row := TradeRow(r);
            && row.takerUser == r.takerUser && row.makerUser == r.makerUser
            && row.takerId == r.takerId && row.makerId == r.makerId && row.takerSide == r.takerSide
            && row.price == r.price && row.quantity == r.quantity
            && row.takerFee % 100 == 0 && -50 <= row.takerFee - r.takerFee <= 50
            && row.makerFee % 100 == 0 && -50 <= row.makerFee - r.makerFee <= 50
  {
    StoredFeeNearest(r.takerFee);
    StoredFeeNearest(r.makerFee);
  }

  /** One result message, in one transaction. */
  function Apply(t: Tables, m: Message): (u: Tables)
    ensures u.orders.Keys == t.orders.Keys
  {
    match m
    case UnmatchedOrder(o) => t.(orders := UpdateRow(t.orders, o))
    case Trade(taker, maker, record) =>
      Tables(UpdateRow(UpdateRow(t.orders, taker), maker), t.trades + [TradeRow(record)])
  }

  function ApplyAll(t: Tables, ms: seq<Message>): (u: Tables)
    ensures u.orders.Keys == t.orders.Keys
    decreases |ms|
  {
    if ms == [] then t else ApplyAll(Apply(t, ms[0]), ms[1..])
  }

  lemma {:induction false} ApplyAllConcat(t: Tables, a: seq<Message>, b: seq<Message>)
    ensures ApplyAll(t, a + b) == ApplyAll(ApplyAll(t, a), b)
    decreases |a|
  {
    if a == [] {
      assert a + b == b;
    } else {
      assert (a + b)[1..] == a[1..] + b;
      ApplyAllConcat(Apply(t, a[0]), a[1..], b);
    }
  }

  // ---- submission and reload ----

  /// What the generator draws at random; quantities are positive.
  datatype Draw = Draw(buys: bool, price: int, quantity: int, feeRate: int)
  type Request = d: Draw | 0 < d.quantity witness Draw(true, 0, 1, 0)

  function NewOrder(id: nat, r: Request): Order {
    Order(id, id, if r.buys then BUY else SELL, r.price, r.quantity, r.feeRate, 0)
  }

  /** A new order carries its id, also as user id, what was drawn, and no fill. */
  lemma NewOrderExactly(id: nat, r: Request)
    ensures var o := NewOrder(id, r);
            && o.orderId == id && o.userId == id
            && o.side == (if r.buys then BUY else SELL)
            && o.price == r.price && o.quantity == r.quantity && o.feeRate == r.feeRate
            && o.filled == 0 && o.Open()
  {
  }

  /// INSERT INTO orders with status INITIAL; a duplicate primary key inserts nothing.
  function InsertRow(t: Tables, o: Order): Tables {
    if o.orderId in t.orders then t
    else t.(orders := t.orders[o.orderId := Row(o.(feeRate := StoredRate(o.feeRate)), INITIAL)])
  }

  /** A new row holds its order as INITIAL, with the rate rounded to four decimals; a row that
      exists already stays as it is, and so do all others. */
  lemma InsertRowExactly(t: Tables, o: Order)
    ensures var u := InsertRow(t, o);
            && u.trades == t.trades
            && u.orders.Keys == t.orders.Keys + {o.orderId}
            && (forall id | id in t.orders :: u.orders[id] == t.orders[id])
            && (o.orderId !in t.orders ==>
                  var row := u.orders[o.orderId];
                  && row.status == INITIAL
                  && row.order == o.(feeRate := row.order.feeRate)
                  && row.order.feeRate % 100 == 0 && -50 <= row.order.feeRate - o.feeRate <= 50
                  && (o.feeRate >= 0 ==> o.feeRate - row.order.feeRate < 50))
  {
    StoredRateExact(o.feeRate);
  }

  /// SELECT MAX(order_id), and 10000 for an empty table.
  function MaxOrderId(t: Tables): (id: nat)
    ensures forall k | k in t.orders :: k <= id
    ensures if t.orders == map[] then id == 10000 else id in t.orders
  {
    if t.orders == map[] then 10000 else Greatest(t.orders.Keys)
  }

  /** Every new row gets an id above all the others. */
  lemma InsertedIsMax(t: Tables, r: Request)
    ensures var o := NewOrder(MaxOrderId(t) + 1, r);
            && (forall id | id in t.orders :: id < o.orderId)
            && MaxOrderId(InsertRow(t, o)) == o.orderId
  {
    var o := NewOrder(MaxOrderId(t) + 1, r);
    var u := InsertRow(t, o);
    assert o.orderId in u.orders;
    assert u.orders.Keys == t.orders.Keys + {o.orderId};
  }

  /// The rows that the reload query selects.
  predicate Selected(r: Row) {
    r.status.INITIAL? || r.status.MATCHING? || r.status.PARTIALLY_FILLED?
  }

  function OpenRows(t: Tables): Book {
    map id | id in t.orders && Selected(t.orders[id]) :: t.orders[id].order
  }

  /** The orders of a book by ascending id. */
  function ById(b: Book): (os: seq<Order>)
    ensures |os| == |b|
    ensures forall i | 0 <= i < |os| :: exists id :: id in b && os[i] == b[id]
    decreases |b|
  {
    if b == map[] then [] else
      var k: nat := Least(b.Keys);
      [b[k]] + ById(b - {k})
  }

  /// The reload query's rows by ascending id.
  function Reload(t: Tables): seq<Order> {
    ById(OpenRows(t))
  }

  /// The reload query in some order: each selected row once.
  ghost predicate Selection(t: Tables, ids: seq<nat>) {
    && (forall i, j | 0 <= i < j < |ids| :: ids[i] != ids[j])
    && (forall id :: id in ids <==> id in OpenRows(t))
  }

  function RowsOf(t: Tables, ids: seq<nat>): seq<Order>
    requires Selection(t, ids)
  {
    assert forall i | 0 <= i < |ids| :: ids[i] in ids;
    seq(|ids|, i requires 0 <= i < |ids| => t.orders[ids[i]].order)
  }

  function IdsOf(os: seq<Order>): seq<nat> {
    seq(|os|, i requires 0 <= i < |os| => os[i].orderId)
  }

  // ---- validity ----

  predicate ValidRow(id: nat, r: Row) {
    && r.order.orderId == id
    && r.order.WellFormed()
    && (r.status == StatusOf(r.order) || (r.status == INITIAL && r.order.filled == 0))
  }

  ghost predicate ValidTables(t: Tables) {
    forall id | id in t.orders :: ValidRow(id, t.orders[id])
  }

  lemma OpenRowsValid(t: Tables)
    requires ValidTables(t)
    ensures ValidBook(OpenRows(t))
    ensures forall id | id in t.orders :: id in OpenRows(t) <==> t.orders[id].order.Open()
  {
  }

  /** In valid tables the status says how far an order is filled. */
  lemma StatusExactly(t: Tables, id: nat)
    requires ValidTables(t) && id in t.orders
    ensures var row := t.orders[id];
            && row.order.orderId == id && 0 <= row.order.filled <= row.order.quantity
            && (row.status == FULLY_FILLED <==> row.order.filled == row.order.quantity)
            && (row.status == PARTIALLY_FILLED <==> 0 < row.order.filled < row.order.quantity)
            && (row.status == INITIAL || row.status == MATCHING <==> row.order.filled == 0)
  {
    assert ValidRow(id, t.orders[id]);
  }

  predicate Ascending(os: seq<Order>) {
    forall i, j | 0 <= i < j < |os| :: os[i].orderId < os[j].orderId
  }

  /** Sorting by id keeps exactly the orders of the book. */
  lemma {:induction false} ByIdContents(b: Book)
    requires forall id | id in b :: b[id].orderId == id
    ensures forall o :: o in ById(b) <==> o.orderId in b && b[o.orderId] == o
    decreases |b|
  {
    if b != map[] {
      var k: nat := Least(b.Keys);
      var c := b - {k};
      ByIdContents(c);
      var rest := ById(c);
      forall o ensures o in [b[k]] + rest <==> o.orderId in b && b[o.orderId] == o {
        assert o in [b[k]] + rest <==> o == b[k] || o in rest;
      }
    }
  }

  lemma AscendingCons(o: Order, os: seq<Order>)
    requires Ascending(os)
    requires forall p | p in os :: o.orderId < p.orderId
    ensures Ascending([o] + os)
  {
    var all := [o] + os;
    forall i, j | 0 <= i < j < |all| ensures all[i].orderId < all[j].orderId {
      assert all[j] == os[j - 1] && os[j - 1] in os;
      assert i > 0 ==> all[i] == os[i - 1];
    }
  }

  lemma ByIdUnfold(b: Book, k: nat)
    requires b != map[] && k == Least(b.Keys)
    ensures ById(b) == [b[k]] + ById(b - {k})
  {
  }

  lemma ByIdEmpty()
    ensures ById(map[]) == []
  {
  }

  lemma {:induction false} ByIdAscending(b: Book)
    requires forall id | id in b :: b[id].orderId == id
    ensures Ascending(ById(b))
    decreases |b|
  {
    hide ById;
    if b == map[] {
      ByIdEmpty();
    } else {
      var k: nat := Least(b.Keys);
      var c := b - {k};
      ByIdAscending(c);
      assert forall p | p in ById(c) :: k < p.orderId by {
        ByIdContents(c);
        assert IsLeast(b.Keys, k);
      }
      AscendingCons(b[k], ById(c));
      ByIdUnfold(b, k);
    }
  }

  // ---- redelivery ----

  /// What the last writer of each id leaves in the status and filled_quantity columns.
  datatype Posting = Posting(status: Status, filled: int)

  function PostingOf(o: Order): map<nat, Posting> {
    map[o.orderId := Posting(StatusOf(o), o.filled)]
  }

  function Writes(m: Message): map<nat, Posting> {
    match m
    case UnmatchedOrder(o) => PostingOf(o)
    case Trade(taker, maker, _) => PostingOf(taker) + PostingOf(maker)
  }

  function WritesOf(ms: seq<Message>): map<nat, Posting> {
    if ms == [] then map[] else Writes(ms[0]) + WritesOf(ms[1..])
  }

  function Post(rows: map<nat, Row>, w: map<nat, Posting>): map<nat, Row> {
    map id | id in rows ::
      if id in w then Row(rows[id].order.(filled := w[id].filled), w[id].status) else rows[id]
  }

  function TradesOf(ms: seq<Message>): seq<TradeRecord> {
    if ms == [] then []
    else (if ms[0].Trade? then [TradeRow(ms[0].record)] else []) + TradesOf(ms[1..])
  }

  lemma PostPost(rows: map<nat, Row>, v: map<nat, Posting>, w: map<nat, Posting>)
    ensures Post(Post(rows, v), w) == Post(rows, v + w)
  {
  }

  lemma PostNothing(rows: map<nat, Row>)
    ensures Post(rows, map[]) == rows
  {
  }

  lemma ApplyPosts(t: Tables, m: Message)
    ensures Apply(t, m).orders == Post(t.orders, Writes(m))
  {
  }

  lemma {:induction false} ApplyAllRows(t: Tables, ms: seq<Message>)
    ensures ApplyAll(t, ms).orders == Post(t.orders, WritesOf(ms))
    decreases |ms|
  {
    hide Apply, Writes, Post;
    if ms == [] {
      PostNothing(t.orders);
    } else {
      var u, rest := Apply(t, ms[0]), ms[1..];
      ApplyPosts(t, ms[0]);
      ApplyAllRows(u, rest);
      PostPost(t.orders, Writes(ms[0]), WritesOf(rest));
    }
  }

  lemma {:induction false} ApplyAllTrades(t: Tables, ms: seq<Message>)
    ensures ApplyAll(t, ms).trades == t.trades + TradesOf(ms)
    decreases |ms|
  {
    hide UpdateRow;
    if ms == [] {
      assert t.trades + [] == t.trades;
    } else {
      var u, rest := Apply(t, ms[0]), ms[1..];
      ApplyAllTrades(u, rest);
      var now: seq<TradeRecord> := if ms[0].Trade? then [TradeRow(ms[0].record)] else [];
      assert u.trades == t.trades + now;
      assert t.trades + now + TradesOf(rest) == t.trades + (now + TradesOf(rest));
    }
  }

  lemma {:induction false} TradesConcat(a: seq<Message>, b: seq<Message>)
    ensures TradesOf(a + b) == TradesOf(a) + TradesOf(b)
  {
    if a == [] {
      assert a + b == b;
    } else {
      assert (a + b)[1..] == a[1..] + b && (a + b)[0] == a[0];
      TradesConcat(a[1..], b);
      var now: seq<TradeRecord> := if a[0].Trade? then [TradeRow(a[0].record)] else [];
      assert now + (TradesOf(a[1..]) + TradesOf(b)) == (now + TradesOf(a[1..])) + TradesOf(b);
    }
  }

  lemma PostingsAssociate(u: map<nat, Posting>, v: map<nat, Posting>, w: map<nat, Posting>)
    ensures (u + v) + w == u + (v + w)
  {
  }

  lemma {:induction false} WritesConcat(a: seq<Message>, b: seq<Message>)
    ensures WritesOf(a + b) == WritesOf(a) + WritesOf(b)
  {
    hide Writes;
    if a == [] {
      assert a + b == b;
      assert map[] + WritesOf(b) == WritesOf(b);
    } else {
      assert (a + b)[1..] == a[1..] + b;
      assert (a + b)[0] == a[0];
      WritesConcat(a[1..], b);
      PostingsAssociate(Writes(a[0]), WritesOf(a[1..]), WritesOf(b));
    }
  }

  /** Replaying any suffix of the consumed log changes no order row and records exactly the
      replayed trades again. */
  lemma Redelivery(t: Tables, ms: seq<Message>, k: nat)
    requires k <= |ms|
    ensures var u := ApplyAll(t, ms);
            ApplyAll(u, ms[k..]) == Tables(u.orders, u.trades + TradesOf(ms[k..]))
  {
    hide ApplyAll, WritesOf, TradesOf, Post;
    var u, suffix := ApplyAll(t, ms), ms[k..];
    ApplyAllRows(t, ms);
    ApplyAllRows(u, suffix);
    ApplyAllTrades(u, suffix);
    PostPost(t.orders, WritesOf(ms), WritesOf(suffix));
    assert ms[..k] + suffix == ms;
    WritesConcat(ms[..k], suffix);
    assert WritesOf(ms) + WritesOf(suffix) == WritesOf(ms);
  }

  // ---- a lost message ----

  /// The row shows already what is to be written to it.
  predicate Shows(row: Row, p: Posting) {
    row.order.filled == p.filled && row.status == p.status
  }

  lemma PostSame(rows: map<nat, Row>, v: map<nat, Posting>, w: map<nat, Posting>)
    ensures Post(rows, v + w) == Post(rows, w) <==>
            forall id | id in rows && id in v && id !in w :: Shows(rows[id], v[id])
  {
    var a, b := Post(rows, v + w), Post(rows, w);
    forall id | id in rows ensures a[id] == b[id] <==> (id in v && id !in w ==> Shows(rows[id], v[id])) {}
    assert a.Keys == b.Keys == rows.Keys;
  }

  /** The worker loses one message m of a log. Updates are absolute, so the rows end as they would
      have if and only if each row that m would have changed is written again later; a lost trade
      stays missing from the trade list. */
  lemma LostMessage(t: Tables, a: seq<Message>, m: Message, b: seq<Message>)
    ensures var before, kept, lost := ApplyAll(t, a), ApplyAll(t, a + [m] + b), ApplyAll(t, a + b);
            && (kept.orders == lost.orders <==>
                forall id | id in before.orders && id in Writes(m) && id !in WritesOf(b) ::
                  Shows(before.orders[id], Writes(m)[id]))
            && |kept.trades| == |lost.trades| + (if m.Trade? then 1 else 0)
  {
    hide Apply, ApplyAll, Writes, WritesOf, TradesOf, Post;
    var u := ApplyAll(t, a);
    ApplyAllConcat(t, a, b);
    ApplyAllConcat(t, a, [m] + b);
    assert a + [m] + b == a + ([m] + b);
    ApplyAllRows(u, b);
    ApplyAllRows(u, [m] + b);
    ApplyAllTrades(u, b);
    ApplyAllTrades(u, [m] + b);
    OneMore(m, b);
    PostSame(u.orders, Writes(m), WritesOf(b));
  }

  lemma OneMore(m: Message, b: seq<Message>)
    ensures WritesOf([m] + b) == Writes(m) + WritesOf(b)
    ensures |TradesOf([m] + b)| == |TradesOf(b)| + (if m.Trade? then 1 else 0)
  {
    assert ([m] + b)[1..] == b;
  }
}
