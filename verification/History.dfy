/** What the tables show after every committed message of every run from an empty database:
    fills agree with the trade list, both sides have traded the same, and makers have been
    served in price-time priority, across crashes. */
module History {
  import opened Orders
  import opened Matching
  import opened Sums
  import opened Tables
  import opened Generator
  import opened Canonical
  import opened Protocol
  import opened Pipeline
  import opened Recovery

  // ---- one committed message ----

  /** The two shapes of a committed message: a trade of the order x with a settled order of a
      smaller id, or the first report of x. */
  ghost predicate CommitTrade(t: Tables, u: Tables, x: nat, k: nat) {
    && IsNext(t, x) && x in t.orders
    && k < x && k in t.orders && k in OpenBelow(t, x)
    && var o, m := t.orders[x].order, t.orders[k].order;
       && o.Open() && m.Open() && Crosses(o, m)
       && var e := Execute(o, m);
          && u.orders == t.orders[x := Row(e.taker, StatusOf(e.taker))]
                                 [k := Row(e.maker, StatusOf(e.maker))]
          && u.trades == t.trades + [TradeRow(e.record)]
  }

  ghost predicate CommitReport(t: Tables, u: Tables, x: nat) {
    && IsNext(t, x) && t.orders[x].status == INITIAL
    && u == t.(orders := t.orders[x := Row(t.orders[x].order, MATCHING)])
  }

  /// k is the best acceptable maker for x among the open orders below x.
  ghost predicate BestMaker(t: Tables, x: nat, k: nat)
    requires x in t.orders
  {
    var b, o := OpenBelow(t, x), t.orders[x].order;
    && ValidBook(b) && Candidates(b, o) != {}
    && k == Best(b, Candidates(b, o), o.Buys())
  }

  lemma CommitShape(t: Tables) returns (x: nat, k: nat)
    requires ValidTables(t) && HasNext(t)
    ensures CommitTrade(t, Commit(t), x, k) || CommitReport(t, Commit(t), x)
    ensures CommitTrade(t, Commit(t), x, k) ==>
              BestMaker(t, x, k) &&
              NextMessage(t) == Execute(t.orders[x].order, t.orders[k].order).Report()
    ensures CommitReport(t, Commit(t), x) ==> NextMessage(t).UnmatchedOrder?
  {
    hide Execute, Apply, StatusOf;
    x :| IsNext(t, x);
    NextIs(t, x);
    MessageApplied(t, x);
    var b, o := OpenBelow(t, x), t.orders[x].order;
    if CanTrade(b, o) {
      k := NextTrade(b, o).maker.orderId;
    } else {
      k := x;
    }
  }

  // ---- the frontier ----

  /** Whatever lies below an order that has left INITIAL is settled: only the last processed
      order may have been interrupted. */
  ghost predicate Frontier(t: Tables) {
    forall i: nat, j: nat | i < j && j in t.orders && t.orders[j].status != INITIAL :: !Unsettled(t, i)
  }

  /// u is t with some open rows filled further or closed, as far as rows below `limit` go.
  ghost predicate FilledFurther(t: Tables, u: Tables, limit: nat) {
    forall id | id in u.orders && id < limit ::
      && id in t.orders
      && u.orders[id].order == t.orders[id].order.(filled := u.orders[id].order.filled)
      && t.orders[id].order.filled <= u.orders[id].order.filled
      && (Selected(u.orders[id]) ==> Selected(t.orders[id]))
      && (u.orders[id].status == INITIAL ==> t.orders[id].status == INITIAL)
  }

  /// A settled order stays settled.
  lemma SettledStays(t: Tables, u: Tables, i: nat)
    requires !Unsettled(t, i) && FilledFurther(t, u, i + 1)
    requires ValidTables(t) && ValidTables(u)
    ensures !Unsettled(u, i)
  {
    if i in u.orders && Selected(u.orders[i]) {
      var b, o := OpenBelow(u, i), u.orders[i].order;
      forall id | id in b ensures !Crosses(o, b[id]) {
        var c, p := OpenBelow(t, i), t.orders[i].order;
        assert id in c && !Crosses(p, c[id]) by {
          assert id in Candidates(c, p) <==> Crosses(p, c[id]);
        }
      }
      assert Candidates(b, o) == {};
    }
  }

  lemma CommitFillsFurther(t: Tables)
    requires ValidTables(t) && HasNext(t)
    ensures forall limit :: FilledFurther(t, Commit(t), limit)
  {
    hide Commit, NextMessage, IsNext;
    var x, k := CommitShape(t);
  }

  /// Above the next order every row is INITIAL.
  lemma NothingBeyond(t: Tables, x: nat)
    requires Frontier(t) && IsNext(t, x)
    ensures forall j: nat | x < j && j in t.orders :: t.orders[j].status == INITIAL
  {
  }

  lemma CommitFrontier(t: Tables)
    requires ValidTables(t) && HasNext(t) && Frontier(t)
    ensures Frontier(Commit(t))
  {
    hide Commit, NextMessage, Execute, FilledFurther, Unsettled;
    var x, k := CommitShape(t);
    var u := Commit(t);
    CommitFillsFurther(t);
    NothingBeyond(t, x);
    assert forall j: nat | x < j && j in u.orders :: j in t.orders && u.orders[j] == t.orders[j];
    forall i: nat, j: nat | i < j && j in u.orders && u.orders[j].status != INITIAL
      ensures !Unsettled(u, i)
    {
      assert !Unsettled(t, i);
      SettledStays(t, u, i);
    }
  }

  lemma InsertFrontier(t: Tables, o: Order)
    requires ValidTables(t) && Frontier(t) && AboveAll(t, o)
    ensures Frontier(InsertRow(t, o))
  {
    var u := InsertRow(t, o);
    forall i: nat, j: nat | i < j && j in u.orders && u.orders[j].status != INITIAL
      ensures !Unsettled(u, i)
    {
      assert j in t.orders && j < o.orderId;
      OpenBelowInsert(t, o, i);
      assert i in u.orders ==> i in t.orders && u.orders[i] == t.orders[i];
      assert !Unsettled(t, i);
    }
  }

  // ---- price-time priority ----

  /// The order id is resting: open, reported, and with nothing left that it could do.
  ghost predicate RestsIn(t: Tables, id: nat) {
    id in t.orders && Selected(t.orders[id]) && !Unsettled(t, id)
  }

  lemma BestIsFirst(t: Tables, u: Tables, x: nat, k: nat, a: nat)
    requires ValidTables(t) && Frontier(t) && CommitTrade(t, u, x, k) && BestMaker(t, x, k)
    requires a in t.orders && Selected(t.orders[a]) && t.orders[a].status != INITIAL
    requires a != k && t.orders[a].order.Buys() == t.orders[k].order.Buys()
    ensures Ahead(t.orders[x].order.Buys(), t.orders[k].order, t.orders[a].order)
  {
    hide Execute, Unsettled, CanTrade;
    NothingBeyond(t, x);
    var b, o := OpenBelow(t, x), t.orders[x].order;
    assert a < x;
    assert a in b;
    if Crosses(o, b[a]) {
      assert a in Candidates(b, o);
    }
  }

  /** Price-time priority at every commit: the maker of the next trade is ahead of every other
      processed open order on its side, whether or not the engine has reloaded that order yet. */
  lemma MakerIsFirst(t: Tables, a: nat)
    requires ValidTables(t) && Frontier(t) && HasNext(t) && NextMessage(t).Trade?
    requires a in t.orders && Selected(t.orders[a]) && t.orders[a].status != INITIAL
    requires var m := NextMessage(t).maker;
             a != m.orderId && t.orders[a].order.Buys() == m.Buys()
    ensures var m, o := NextMessage(t).maker, t.orders[a].order;
            || (if m.side == BUY then m.price > o.price else m.price < o.price)
            || (m.price == o.price && m.orderId < o.orderId)
  {
    hide Commit, NextMessage, StatusOf, Unsettled, Candidates;
    var x, k := CommitShape(t);
    assert CommitTrade(t, Commit(t), x, k);
    assert t.orders[k].order.orderId == k;
    BestIsFirst(t, Commit(t), x, k, a);
  }

  lemma CommitKeepsPriority(t: Tables, a: nat, b: nat)
    requires ValidTables(t) && HasNext(t) && Frontier(t)
    requires RestsIn(t, a) && RestsIn(t, b) && a != b
    requires t.orders[a].order.Buys() == t.orders[b].order.Buys()
    requires Ahead(!t.orders[a].order.Buys(), t.orders[a].order, t.orders[b].order)
    ensures var u := Commit(t);
            && u.orders[b] == t.orders[b] && RestsIn(u, b)
            && a in u.orders
            && u.orders[a].order == t.orders[a].order.(filled := u.orders[a].order.filled)
            && (Selected(u.orders[a]) ==> RestsIn(u, a))
  {
    hide Commit, NextMessage, Execute, StatusOf, Candidates, CanTrade;
    var x, k := CommitShape(t);
    var u := Commit(t);
    if CommitTrade(t, u, x, k) {
      if k == b {
        BestIsFirst(t, u, x, k, a);
      }
    }
    CommitFillsFurther(t);
    assert FilledFurther(t, u, a + 1) && FilledFurther(t, u, b + 1);
    SettledStays(t, u, a);
    SettledStays(t, u, b);
  }

  /// Along a path rows only gain fill, and nothing else about an order changes.
  lemma {:induction false} PathFills(t: Tables, n: nat, u: Tables, id: nat)
    requires Path(t, n, u) && id in t.orders
    ensures id in u.orders
    ensures u.orders[id].order == t.orders[id].order.(filled := u.orders[id].order.filled)
    ensures t.orders[id].order.filled <= u.orders[id].order.filled
    decreases n
  {
    hide Commit, HasNext, ValidTables;
    if n > 0 {
      CommitFillsFurther(t);
      assert FilledFurther(t, Commit(t), id + 1);
      PathFills(Commit(t), n - 1, u, id);
    }
  }

  /** Price-time priority along a path: of two resting orders on one side, the one behind does
      not trade before the one ahead is complete. */
  lemma {:induction false} PathPriority(t: Tables, n: nat, u: Tables, a: nat, b: nat)
    requires Path(t, n, u) && Frontier(t)
    requires RestsIn(t, a) && RestsIn(t, b) && a != b
    requires t.orders[a].order.Buys() == t.orders[b].order.Buys()
    requires Ahead(!t.orders[a].order.Buys(), t.orders[a].order, t.orders[b].order)
    ensures a in u.orders && b in u.orders
    ensures u.orders[b].order.filled == t.orders[b].order.filled || !u.orders[a].order.Open()
    decreases n
  {
    hide Commit, HasNext, ValidTables, Unsettled, Selected, Frontier;
    PathFills(t, n, u, a);
    PathFills(t, n, u, b);
    if n > 0 {
      var c := Commit(t);
      CommitKeepsPriority(t, a, b);
      CommitFrontier(t);
      PathFills(c, n - 1, u, a);
      if Selected(c.orders[a]) {
        PathPriority(c, n - 1, u, a, b);
      } else {
        NotSelectedIsFull(c, a);
      }
    }
  }

  lemma NotSelectedIsFull(t: Tables, id: nat)
    requires ValidTables(t) && id in t.orders && !Selected(t.orders[id])
    ensures t.orders[id].order.filled == t.orders[id].order.quantity
  {
  }

  // ---- reconciliation and balance ----

  /// The trade quantity recorded for an order in either slot.
  function TradedBy(trades: seq<TradeRecord>, id: nat): int {
    if trades == [] then 0 else
      var r := trades[|trades| - 1];
      TradedBy(trades[..|trades| - 1], id) + (if r.takerId == id || r.makerId == id then r.quantity else 0)
  }

  function TradeVolume(trades: seq<TradeRecord>): int {
    if trades == [] then 0
    else TradeVolume(trades[..|trades| - 1]) + trades[|trades| - 1].quantity
  }

  /// Every row's filled_quantity is the sum over the trades that name it.
  ghost predicate Reconciled(t: Tables) {
    forall id: nat ::
      TradedBy(t.trades, id) == if id in t.orders then t.orders[id].order.filled else 0
  }

  function FillsBySide(t: Tables, buys: bool): map<nat, int> {
    map id | id in t.orders && t.orders[id].order.Buys() == buys :: t.orders[id].order.filled
  }

  /// Both sides have filled exactly the traded volume.
  ghost predicate Balanced(t: Tables) {
    forall buys: bool :: Total(FillsBySide(t, buys)) == TradeVolume(t.trades)
  }

  /// A recorded trade: the two orders it names are on opposite sides, the maker submitted first;
  /// it names their users and the taker's side, has a positive quantity and the maker's price,
  /// and that is within the taker's limit.
  ghost predicate Priced(t: Tables, r: TradeRecord) {
    && r.makerId < r.takerId && r.takerId in t.orders && r.makerId in t.orders
    && var o, m := t.orders[r.takerId].order, t.orders[r.makerId].order;
       && r.takerUser == o.userId && r.makerUser == m.userId
       && r.takerSide == o.side
       && r.price == m.price
       && (if o.side == BUY then m.side != BUY && r.price <= o.price else m.side == BUY && r.price >= o.price)
       && 0 < r.quantity
  }

  ghost predicate AllPriced(t: Tables) {
    forall r | r in t.trades :: Priced(t, r)
  }

  /// A trade stays correctly priced while its two orders are only filled further.
  lemma PricedStays(t: Tables, u: Tables, r: TradeRecord)
    requires Priced(t, r)
    requires forall id | id in t.orders ::
               id in u.orders && u.orders[id].order == t.orders[id].order.(filled := u.orders[id].order.filled)
    ensures Priced(u, r)
  {
  }

  lemma CommitPriced(t: Tables)
    requires ValidTables(t) && HasNext(t) && AllPriced(t)
    ensures AllPriced(Commit(t))
  {
    hide Commit, NextMessage, StatusOf, IsNext, OpenBelow, BestMaker, CommitReport, Priced;
    var x, k := CommitShape(t);
    var u := Commit(t);
    forall id | id in t.orders
      ensures id in u.orders && u.orders[id].order == t.orders[id].order.(filled := u.orders[id].order.filled)
    {
      CommitFillsFurther(t);
      assert FilledFurther(t, u, id + 1);
    }
    if CommitTrade(t, u, x, k) {
      var o, m := t.orders[x].order, t.orders[k].order;
      var r := TradeRow(Execute(o, m).record);
      assert Priced(t, r) by { NewTradePriced(t, x, k); }
      forall q | q in u.trades ensures Priced(u, q) {
        assert q in t.trades || q == r;
        PricedStays(t, u, q);
      }
    } else {
      ReportFills(t, u, x);
      forall q | q in u.trades ensures Priced(u, q) {
        PricedStays(t, u, q);
      }
    }
  }

  lemma NewTradePriced(t: Tables, x: nat, k: nat)
    requires ValidTables(t) && k < x && x in t.orders && k in t.orders
    requires t.orders[x].order.Open() && t.orders[k].order.Open()
    requires Crosses(t.orders[x].order, t.orders[k].order)
    ensures Priced(t, TradeRow(Execute(t.orders[x].order, t.orders[k].order).record))
  {
    assert ValidRow(x, t.orders[x]) && ValidRow(k, t.orders[k]);
  }

  lemma TradedByAppend(trades: seq<TradeRecord>, r: TradeRecord, id: nat)
    ensures TradedBy(trades + [r], id) ==
            TradedBy(trades, id) + (if r.takerId == id || r.makerId == id then r.quantity else 0)
    ensures TradeVolume(trades + [r]) == TradeVolume(trades) + r.quantity
  {
    assert (trades + [r])[..|trades|] == trades;
  }

  lemma CommitReconciled(t: Tables)
    requires ValidTables(t) && HasNext(t) && Reconciled(t)
    ensures Reconciled(Commit(t))
  {
    hide Commit, NextMessage, StatusOf, IsNext, OpenBelow, BestMaker, CommitReport, TradedBy;
    var x, k := CommitShape(t);
    var u := Commit(t);
    if CommitTrade(t, u, x, k) {
      var r := TradeRow(Execute(t.orders[x].order, t.orders[k].order).record);
      forall id: nat
        ensures TradedBy(u.trades, id) == if id in u.orders then u.orders[id].order.filled else 0
      {
        TradedByAppend(t.trades, r, id);
        assert TradedBy(t.trades, id) == if id in t.orders then t.orders[id].order.filled else 0;
      }
    } else {
      ReportFills(t, u, x);
    }
  }

  lemma ReportFills(t: Tables, u: Tables, x: nat)
    requires CommitReport(t, u, x)
    ensures u.trades == t.trades && u.orders.Keys == t.orders.Keys
    ensures forall id | id in t.orders :: u.orders[id].order == t.orders[id].order
  {
  }

  lemma CommitBalanced(t: Tables)
    requires ValidTables(t) && HasNext(t) && Balanced(t)
    ensures Balanced(Commit(t))
  {
    hide Commit, NextMessage, StatusOf, IsNext, OpenBelow, BestMaker, CommitReport, Total;
    var x, k := CommitShape(t);
    var u := Commit(t);
    if CommitTrade(t, u, x, k) {
      TradeBalanced(t, u, x, k);
    } else {
      ReportFills(t, u, x);
      forall buys: bool ensures FillsBySide(u, buys) == FillsBySide(t, buys) {}
    }
  }

  /// Two orders of opposite sides are updated: each changes the fills of its own side.
  lemma FillsUpdate(t: Tables, u: Tables, x: nat, o: Row, k: nat, m: Row)
    requires x in t.orders && k in t.orders && x != k
    requires u.orders == t.orders[x := o][k := m]
    requires o.order.Buys() == t.orders[x].order.Buys()
    requires m.order.Buys() == t.orders[k].order.Buys()
    requires o.order.Buys() != m.order.Buys()
    ensures FillsBySide(u, o.order.Buys()) == FillsBySide(t, o.order.Buys())[x := o.order.filled]
    ensures FillsBySide(u, m.order.Buys()) == FillsBySide(t, m.order.Buys())[k := m.order.filled]
  {
  }

  lemma TradeBalanced(t: Tables, u: Tables, x: nat, k: nat)
    requires ValidTables(t) && CommitTrade(t, u, x, k) && Balanced(t)
    ensures Balanced(u)
  {
    hide StatusOf, IsNext, OpenBelow, Total, FillsBySide, TradeVolume, ValidTables;
    var o, m := t.orders[x].order, t.orders[k].order;
    var e := Execute(o, m);
    TradedByAppend(t.trades, TradeRow(e.record), x);
    FillsUpdate(t, u, x, u.orders[x], k, u.orders[k]);
    TotalUpdate(FillsBySide(t, o.Buys()), x, e.taker.filled);
    TotalUpdate(FillsBySide(t, m.Buys()), k, e.maker.filled);
    FillOf(t, x);
    FillOf(t, k);
  }

  lemma FillOf(t: Tables, id: nat)
    requires id in t.orders
    ensures var o := t.orders[id].order;
            id in FillsBySide(t, o.Buys()) && FillsBySide(t, o.Buys())[id] == o.filled
  {
  }

  // ---- every run ----

  /// What the tables show in every reachable state.
  ghost predicate Consistent(t: Tables) {
    ValidTables(t) && Frontier(t) && Reconciled(t) && Balanced(t) && AllPriced(t)
  }

  lemma EmptyConsistent()
    ensures Consistent(Tables(map[], []))
  {
    var t := Tables(map[], []);
    forall buys: bool ensures FillsBySide(t, buys) == map[] {}
  }

  lemma InsertPriced(t: Tables, o: Order)
    requires AboveAll(t, o) && AllPriced(t)
    ensures AllPriced(InsertRow(t, o))
  {
  }

  lemma InsertConsistent(t: Tables, o: Order)
    requires Consistent(t) && AboveAll(t, o) && o.WellFormed() && o.filled == 0
    ensures Consistent(InsertRow(t, o))
  {
    hide Frontier, Total, AllPriced;
    var u := InsertRow(t, o);
    InsertValid(t, o);
    InsertFrontier(t, o);
    InsertPriced(t, o);
    forall buys: bool ensures Total(FillsBySide(u, buys)) == Total(FillsBySide(t, buys)) {
      var f := FillsBySide(t, buys);
      TotalUpdate(f, o.orderId, 0);
      assert FillsBySide(u, buys) == if o.Buys() == buys then f[o.orderId := 0] else f;
    }
  }

  lemma {:induction false} InsertAllConsistent(t: Tables, rs: seq<Request>)
    requires Consistent(t)
    ensures Consistent(InsertAll(t, rs))
    decreases |rs|
  {
    hide Consistent, MaxOrderId, InsertRow;
    if rs != [] {
      InsertedIsMax(t, rs[0]);
      InsertConsistent(t, NewOrder(MaxOrderId(t) + 1, rs[0]));
      InsertAllConsistent(InsertRow(t, NewOrder(MaxOrderId(t) + 1, rs[0])), rs[1..]);
    }
  }

  lemma {:induction false} PathConsistent(t: Tables, n: nat, u: Tables)
    requires Path(t, n, u) && Consistent(t)
    ensures Consistent(u)
    decreases n
  {
    hide Commit, HasNext, ValidTables, Frontier, Reconciled, Balanced, AllPriced;
    if n > 0 {
      CommitFrontier(t);
      CommitReconciled(t);
      CommitBalanced(t);
      CommitPriced(t);
      PathConsistent(Commit(t), n - 1, u);
    }
  }

  /** After every step of every run, crashes included: each row's filled quantity is the sum of
      the trades that name it, both sides have filled the traded volume, every trade is between
      a buy and a sell order at the older order's price and within the newer one's limit, and
      at most the last processed order is unfinished. */
  lemma RunConsistent(t: Tables, steps: seq<Step>)
    requires Consistent(t) && GoodRun(steps)
    ensures Consistent(Exec(Start(t), steps).tables)
  {
    hide Coherent, Path, Reconciled, Balanced, Frontier, AllPriced;
    StartCoherent(t);
    RunAdvances(Start(t), steps);
    var e := Exec(Start(t), steps);
    assert e.requests[0..] == e.requests;
    var n :| Path(InsertAll(t, e.requests), n, e.tables);
    InsertAllConsistent(t, e.requests);
    PathConsistent(InsertAll(t, e.requests), n, e.tables);
  }

  // ---- priority over runs ----

  lemma InsertRests(t: Tables, o: Order, id: nat)
    requires AboveAll(t, o) && RestsIn(t, id)
    ensures RestsIn(InsertRow(t, o), id)
    ensures InsertRow(t, o).orders[id] == t.orders[id]
  {
    OpenBelowInsert(t, o, id);
  }

  lemma {:induction false} InsertAllRests(t: Tables, rs: seq<Request>, id: nat)
    requires RestsIn(t, id)
    ensures RestsIn(InsertAll(t, rs), id)
    ensures InsertAll(t, rs).orders[id] == t.orders[id]
    decreases |rs|
  {
    hide Unsettled, MaxOrderId, InsertRow;
    if rs != [] {
      InsertedIsMax(t, rs[0]);
      var o := NewOrder(MaxOrderId(t) + 1, rs[0]);
      InsertRests(t, o, id);
      InsertAllRests(InsertRow(t, o), rs[1..], id);
    }
  }

  /** Price-time priority over whole runs, recovery included: if two orders rest on the same
      side and one has the better price, or the same price and the smaller id, then in every
      later state the other is filled no further unless the first is complete. */
  lemma PriorityOverRuns(s: State, steps: seq<Step>, a: nat, b: nat)
    requires Coherent(s) && Consistent(s.tables) && GoodRun(steps)
    requires RestsIn(s.tables, a) && RestsIn(s.tables, b) && a != b
    requires var o, p := s.tables.orders[a].order, s.tables.orders[b].order;
             && o.Buys() == p.Buys()
             && (|| (if o.side == BUY then o.price > p.price else o.price < p.price)
                 || (o.price == p.price && o.orderId < p.orderId))
    ensures var rows := Exec(s, steps).tables.orders;
            && a in rows && b in rows
            && (rows[b].order.filled == s.tables.orders[b].order.filled || !rows[a].order.Open())
  {
    hide Coherent, Path, Reconciled, Balanced, Frontier, AllPriced, Unsettled, InsertAll;
    RunAdvances(s, steps);
    var e := Exec(s, steps);
    var rs := e.requests[|s.requests|..];
    var t := InsertAll(s.tables, rs);
    var n :| Path(t, n, e.tables);
    InsertAllConsistent(s.tables, rs);
    InsertAllRests(s.tables, rs, a);
    InsertAllRests(s.tables, rs, b);
    PathPriority(t, n, e.tables, a, b);
  }
}
