/** The tables alone determine what is to happen next. Among the open rows in id order, the
    next order is the first that is INITIAL or that could trade with an open order of smaller
    id; the next message is its best trade, or the report that it found none. */
module Canonical {
  import opened Orders
  import opened Matching
  import opened BookInvariants
  import opened Tables

  function OpenBelow(t: Tables, x: nat): Book {
    map id | id in t.orders && id < x && Selected(t.orders[id]) :: t.orders[id].order
  }

  ghost predicate Unsettled(t: Tables, x: nat) {
    && x in t.orders && Selected(t.orders[x])
    && (t.orders[x].status == INITIAL || CanTrade(OpenBelow(t, x), t.orders[x].order))
  }

  /// A settled order crosses no open order below it.
  lemma SettledCrossesNone(t: Tables, x: nat, y: nat)
    requires !Unsettled(t, x) && x in OpenBelow(t, x + 1) && y in OpenBelow(t, x)
    requires t.orders[x].order.Open()
    ensures !Crosses(t.orders[x].order, t.orders[y].order)
  {
    var b, o := OpenBelow(t, x), t.orders[x].order;
    assert y in Candidates(b, o) <==> Crosses(o, b[y]);
  }

  ghost predicate IsNext(t: Tables, x: nat) {
    Unsettled(t, x) && forall y: nat | y < x :: !Unsettled(t, y)
  }

  ghost predicate HasNext(t: Tables) {
    exists x :: IsNext(t, x)
  }

  /// Where no order below x has anything left to do, the open rows below x do not cross.
  lemma BelowUncrossed(t: Tables, x: nat)
    requires ValidTables(t) && forall y: nat | y < x :: !Unsettled(t, y)
    ensures ValidBook(OpenBelow(t, x)) && Uncrossed(OpenBelow(t, x))
  {
    var b := OpenBelow(t, x);
    OpenBelowValid(t, x);
    forall i, j | i in b && j in b && b[i].Buys() && !b[j].Buys() ensures b[i].price < b[j].price {
      var hi: nat, lo: nat := if i < j then j else i, if i < j then i else j;
      assert !Unsettled(t, hi);
      SettledCrossesNone(t, hi, lo);
    }
  }

  // ---- the order of a reload ----

  ghost predicate SettledUpTo(t: Tables, x: nat) {
    forall y: nat | y <= x :: !Unsettled(t, y)
  }

  /** The rows come by id, except that rows up to which nothing is left to do may come in any
      order. */
  ghost predicate InTurn(t: Tables, ids: seq<nat>) {
    forall i, j | 0 <= i < j < |ids| :: ids[i] < ids[j] || SettledUpTo(t, ids[i])
  }

  lemma {:induction false} NothingBelow(t: Tables, x: nat)
    requires !HasNext(t)
    ensures forall y: nat | y < x :: !Unsettled(t, y)
    decreases x
  {
    if x > 0 {
      NothingBelow(t, x - 1);
      if Unsettled(t, x - 1) {
        assert IsNext(t, x - 1);
      }
    }
  }

  /// The next order, or an id above all rows when nothing is left to do.
  lemma NextOrEnd(t: Tables) returns (x: nat)
    ensures forall y: nat | y < x :: !Unsettled(t, y)
    ensures Unsettled(t, x) || forall id | id in t.orders :: id < x
  {
    if HasNext(t) {
      x :| IsNext(t, x);
    } else {
      x := MaxOrderId(t) + 1;
      NothingBelow(t, x);
    }
  }

  /// A reload in turn is some settled rows in any order, and then the others by id.
  lemma {:induction false} InTurnSplits(ids: seq<nat>, x: nat) returns (d: nat)
    requires forall i, j | 0 <= i < j < |ids| :: ids[i] < ids[j] || ids[i] < x
    ensures d <= |ids|
    ensures forall i | 0 <= i < d :: ids[i] < x
    ensures forall i | d <= i < |ids| :: x <= ids[i]
    decreases |ids|
  {
    if ids == [] || x <= ids[0] {
      d := 0;
    } else {
      var rest := ids[1..];
      assert forall i | 0 <= i < |rest| :: rest[i] == ids[i + 1];
      var k := InTurnSplits(rest, x);
      d := k + 1;
      assert forall i | 1 <= i < |ids| :: ids[i] == rest[i - 1];
    }
  }

  /// The message for the order x, given the open orders below it.
  ghost function MessageFor(b: Book, o: Order): Message
    requires ValidBook(b)
  {
    if CanTrade(b, o) then NextTrade(b, o).Report() else UnmatchedOrder(o)
  }

  lemma OpenBelowValid(t: Tables, x: nat)
    requires ValidTables(t)
    ensures ValidBook(OpenBelow(t, x))
  {
  }

  ghost function NextMessage(t: Tables): Message
    requires ValidTables(t) && HasNext(t)
  {
    var x :| IsNext(t, x);
    OpenBelowValid(t, x);
    MessageFor(OpenBelow(t, x), t.orders[x].order)
  }

  lemma NextUnique(t: Tables, x: nat, y: nat)
    requires IsNext(t, x) && IsNext(t, y)
    ensures x == y
  {
  }

  lemma NextIs(t: Tables, x: nat)
    requires ValidTables(t) && IsNext(t, x)
    ensures HasNext(t) && ValidBook(OpenBelow(t, x))
    ensures NextMessage(t) == MessageFor(OpenBelow(t, x), t.orders[x].order)
  {
    OpenBelowValid(t, x);
    var y :| IsNext(t, y) && NextMessage(t) == MessageFor(OpenBelow(t, y), t.orders[y].order);
    NextUnique(t, x, y);
  }

  /** Applying a trade of an open row with an open row of the book. */
  lemma ApplyTrade(t: Tables, taker: Order, maker: Order)
    requires ValidTables(t)
    requires taker.Open() && taker.orderId in t.orders && t.orders[taker.orderId].order == taker
    requires maker.Open() && maker.orderId in t.orders && t.orders[maker.orderId].order == maker
    requires taker.orderId != maker.orderId
    ensures var x := Execute(taker, maker);
            var u := Apply(t, x.Report());
            && ValidTables(u)
            && u.orders == t.orders[taker.orderId := Row(x.taker, StatusOf(x.taker))]
                                   [maker.orderId := Row(x.maker, StatusOf(x.maker))]
            && u.trades == t.trades + [TradeRow(x.record)]
  {
  }

  lemma ApplyUnmatched(t: Tables, o: Order)
    requires ValidTables(t)
    requires o.Open() && o.orderId in t.orders && t.orders[o.orderId].order == o
    requires o.filled == 0
    ensures var u := Apply(t, UnmatchedOrder(o));
            ValidTables(u) && u == t.(orders := t.orders[o.orderId := Row(o, MATCHING)])
  {
  }

  /** What the message for an unsettled order does to the tables. */
  lemma MessageApplied(t: Tables, x: nat)
    requires ValidTables(t) && Unsettled(t, x)
    ensures ValidBook(OpenBelow(t, x))
    ensures var b, o := OpenBelow(t, x), t.orders[x].order;
            var u := Apply(t, MessageFor(b, o));
            && ValidTables(u)
            && if CanTrade(b, o) then
                 var e := NextTrade(b, o);
                 && e.taker.orderId == x && e.maker.orderId in b && e.maker.orderId < x
                 && e == Execute(o, b[e.maker.orderId]) && Crosses(o, b[e.maker.orderId])
                 && u.orders == t.orders[x := Row(e.taker, StatusOf(e.taker))]
                                        [e.maker.orderId := Row(e.maker, StatusOf(e.maker))]
                 && u.trades == t.trades + [TradeRow(e.record)]
               else
                 && t.orders[x].status == INITIAL
                 && u == t.(orders := t.orders[x := Row(o, MATCHING)])
  {
    OpenBelowValid(t, x);
    var b, o := OpenBelow(t, x), t.orders[x].order;
    if CanTrade(b, o) {
      TradeTouches(b, o);
      ApplyTrade(t, o, b[NextTrade(b, o).maker.orderId]);
    } else {
      ApplyUnmatched(t, o);
    }
  }

  /// The tables after the next message.
  ghost function Commit(t: Tables): (u: Tables)
    requires ValidTables(t) && HasNext(t)
    ensures ValidTables(u) && u.orders.Keys == t.orders.Keys
  {
    var x :| IsNext(t, x);
    NextIs(t, x);
    MessageApplied(t, x);
    Apply(t, NextMessage(t))
  }

  /** n messages lead from t to u. */
  ghost predicate Path(t: Tables, n: nat, u: Tables)
    decreases n
  {
    ValidTables(t) && if n == 0 then u == t else HasNext(t) && Path(Commit(t), n - 1, u)
  }

  lemma {:induction false} PathValid(t: Tables, n: nat, u: Tables)
    requires Path(t, n, u)
    ensures ValidTables(u) && u.orders.Keys == t.orders.Keys
    decreases n
  {
    hide Commit, HasNext, ValidTables;
    if n > 0 {
      PathValid(Commit(t), n - 1, u);
    }
  }

  lemma {:induction false} PathSnoc(t: Tables, n: nat, u: Tables)
    requires Path(t, n, u) && ValidTables(u) && HasNext(u)
    ensures Path(t, n + 1, Commit(u))
    decreases n
  {
    hide Commit, HasNext, ValidTables;
    if n > 0 {
      PathSnoc(Commit(t), n - 1, u);
    }
  }

  /** There is one way to finish: two paths to tables with nothing left agree. */
  lemma {:induction false} PathUnique(t: Tables, n: nat, u: Tables, m: nat, v: Tables)
    requires Path(t, n, u) && Path(t, m, v)
    requires !HasNext(u) && !HasNext(v)
    ensures n == m && u == v
    decreases n
  {
    hide Commit, HasNext, ValidTables;
    if n > 0 && m > 0 {
      PathUnique(Commit(t), n - 1, u, m - 1, v);
    }
  }

  // ---- submission commutes with what is already determined ----

  ghost predicate AboveAll(t: Tables, o: Order) {
    forall id | id in t.orders :: id < o.orderId
  }

  lemma OpenBelowInsert(t: Tables, o: Order, x: nat)
    requires AboveAll(t, o) && x <= o.orderId
    ensures OpenBelow(InsertRow(t, o), x) == OpenBelow(t, x)
  {
  }

  /// A new order with the largest id does not change what comes next.
  lemma InsertIsNext(t: Tables, o: Order, x: nat)
    requires AboveAll(t, o) && IsNext(t, x)
    ensures IsNext(InsertRow(t, o), x)
  {
    var u := InsertRow(t, o);
    forall y: nat | y <= x ensures Unsettled(u, y) <==> Unsettled(t, y) {
      OpenBelowInsert(t, o, y);
    }
  }

  lemma InsertValid(t: Tables, o: Order)
    requires ValidTables(t) && AboveAll(t, o) && o.WellFormed() && o.filled == 0
    ensures ValidTables(InsertRow(t, o))
  {
  }

  lemma InsertCommutes(t: Tables, o: Order, m: Message)
    requires AboveAll(t, o)
    requires m.UnmatchedOrder? ==> m.order.orderId in t.orders
    requires m.Trade? ==> m.taker.orderId in t.orders && m.maker.orderId in t.orders
    ensures Apply(InsertRow(t, o), m) == InsertRow(Apply(t, m), o)
  {
  }

  lemma NextMentionsRows(t: Tables)
    requires ValidTables(t) && HasNext(t)
    ensures var m := NextMessage(t);
            && (m.UnmatchedOrder? ==> m.order.orderId in t.orders)
            && (m.Trade? ==> m.taker.orderId in t.orders && m.maker.orderId in t.orders)
  {
    var x :| IsNext(t, x);
    NextIs(t, x);
    MessageApplied(t, x);
  }

  lemma InsertNext(t: Tables, o: Order)
    requires ValidTables(t) && HasNext(t)
    requires AboveAll(t, o) && o.WellFormed() && o.filled == 0
    ensures var u := InsertRow(t, o);
            && ValidTables(u) && HasNext(u)
            && NextMessage(u) == NextMessage(t)
            && Commit(u) == InsertRow(Commit(t), o)
  {
    var u := InsertRow(t, o);
    var x :| IsNext(t, x);
    InsertValid(t, o);
    InsertIsNext(t, o, x);
    OpenBelowInsert(t, o, x);
    NextIs(t, x);
    NextIs(u, x);
    NextMentionsRows(t);
    InsertCommutes(t, o, NextMessage(t));
  }

  lemma {:induction false} PathInsert(t: Tables, n: nat, u: Tables, o: Order)
    requires Path(t, n, u)
    requires AboveAll(t, o) && o.WellFormed() && o.filled == 0
    ensures Path(InsertRow(t, o), n, InsertRow(u, o))
    decreases n
  {
    hide Commit, HasNext, ValidTables;
    InsertValid(t, o);
    if n > 0 {
      InsertNext(t, o);
      PathInsert(Commit(t), n - 1, u, o);
    }
  }
}
