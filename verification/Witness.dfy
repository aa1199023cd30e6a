/** Runs that show the conditions of the recovery and restart theorems to be needed: whole
    families of inputs on which the source falls short, each from empty tables. */
module Witness {
  import opened Fees
  import opened Orders
  import opened Matching
  import opened BookInvariants
  import opened Tables
  import opened Canonical
  import opened Protocol
  import opened History
  import opened Restart
  import opened Rates
  import opened RestartRates

  // ---- one order, caught by a crash before the engine took it ----

  const EMPTY := Tables(map[], [])

  function Undisturbed(r: Request): seq<Step> {
    [Load([]), ReadMax, Submit(r), Send, Take, Finish, Persist]
  }

  function CaughtByCrash(r: Request): seq<Step> {
    [Load([]), ReadMax, Submit(r), Crash, Load([10001]), Send, ReadMax, Take, Finish, Persist]
  }

  /// The end of both runs: the order rests, at the rate the engine was given.
  ghost function Alone(r: Request, feeRate: int): State {
    var o := NewOrder(10001, r).(feeRate := feeRate);
    var row := NewOrder(10001, r).(feeRate := StoredRate(r.feeRate));
    State(Tables(map[10001 := Row(row, MATCHING)], []), Generating(10001), [], [],
          map[10001 := o], None, [], [r])
  }

  lemma EmptyTables()
    ensures MaxOrderId(EMPTY) == 10000
    ensures Selection(EMPTY, []) && RowsOf(EMPTY, []) == [] && InTurn(EMPTY, [])
  {
  }

  /// The tables after the one order has been submitted, and what a reload then gives.
  lemma OneRow(r: Request)
    ensures var o := NewOrder(10001, r);
            var t := InsertRow(EMPTY, o);
            && t == Tables(map[10001 := Row(o.(feeRate := StoredRate(r.feeRate)), INITIAL)], [])
            && MaxOrderId(t) == 10001
            && Selection(t, [10001]) && InTurn(t, [10001])
            && RowsOf(t, [10001]) == [o.(feeRate := StoredRate(r.feeRate))]
  {
    var o := NewOrder(10001, r).(feeRate := StoredRate(r.feeRate));
    var t := InsertRow(EMPTY, NewOrder(10001, r));
    assert t.orders == map[10001 := Row(o, INITIAL)];
    assert 10001 in t.orders;
    OnlyRow(t);
  }

  lemma OnlyRow(t: Tables)
    requires t.orders.Keys == {10001} && Selected(t.orders[10001])
    ensures Selection(t, [10001]) && InTurn(t, [10001])
    ensures RowsOf(t, [10001]) == [t.orders[10001].order]
  {
    assert OpenRows(t).Keys == {10001};
  }

  /// An order alone in the engine is reported and rests.
  lemma AloneRests(s: State, r: Request, o: Order)
    requires s.taker.None? && s.results == [] && s.resting == map[] && s.queue == [o]
    requires s.unsent == [] && s.phase == Generating(10001) && s.requests == [r]
    requires s.tables == InsertRow(EMPTY, NewOrder(10001, r))
    requires o == NewOrder(10001, r).(feeRate := o.feeRate)
    ensures Exec(s, [Take, Finish, Persist]) == Alone(r, o.feeRate)
  {
    hide MaxOrderId;
    OneRow(r);
    var u := Do(s, Take);
    assert Candidates(map[], o) == {};
    assert !TradeEnabled(u);
    var v := Do(u, Finish);
    assert v.resting == map[10001 := o];
    assert v.results == [UnmatchedOrder(o)];
    var w := Do(v, Persist);
    assert w.tables.orders == Alone(r, o.feeRate).tables.orders;
    ExecThree(s, Take, Finish, Persist);
  }

  lemma ExecThree(s: State, a: Step, b: Step, c: Step)
    ensures Exec(s, [a, b, c]) == Do(Do(Do(s, a), b), c)
  {
    hide Do;
    assert [a, b, c] == [a] + [b, c] && [b, c] == [b] + [c] && [c] == [c] + [];
    ExecCons(s, a, [b, c]);
    ExecCons(Do(s, a), b, [c]);
    ExecCons(Do(Do(s, a), b), c, []);
    ExecNone(Do(Do(Do(s, a), b), c));
  }

  lemma UndisturbedRests(r: Request)
    ensures Exec(Start(EMPTY), Undisturbed(r)) == Alone(r, r.feeRate)
  {
    hide Do, MaxOrderId, InsertRow;
    var begin, tail := [Load([]), ReadMax, Submit(r)], [Take, Finish, Persist];
    var s := Exec(Start(EMPTY), begin);
    Submitted(r);
    assert Undisturbed(r) == begin + ([Send] + tail);
    ExecConcat(Start(EMPTY), begin, [Send] + tail);
    ExecCons(s, Send, tail);
    SendsOne(s, NewOrder(10001, r));
    AloneRests(Do(s, Send), r, NewOrder(10001, r));
  }

  lemma CaughtRests(r: Request)
    ensures Exec(Start(EMPTY), CaughtByCrash(r)) == Alone(r, StoredRate(r.feeRate))
  {
    hide Do, MaxOrderId, InsertRow;
    var begin, tail := [Load([]), ReadMax, Submit(r)], [Take, Finish, Persist];
    var s := Exec(Start(EMPTY), begin);
    Submitted(r);
    var reload := [Crash, Load([10001]), Send];
    var d := Exec(s, reload);
    assert CaughtByCrash(r) == begin + (reload + ([ReadMax] + tail));
    ExecConcat(Start(EMPTY), begin, reload + ([ReadMax] + tail));
    ExecConcat(s, reload, [ReadMax] + tail);
    ExecCons(d, ReadMax, tail);
    Reloaded(s, r);
    AloneRests(Do(d, ReadMax), r, NewOrder(10001, r).(feeRate := StoredRate(r.feeRate)));
  }

  /** The recovery theorem needs its condition on rates. For every request: a run in which a
      crash catches the order before the engine has taken it leaves the engine as the
      undisturbed run does if and only if the rate has at most four decimals. */
  lemma OneOrderCrash(r: Request)
    ensures var u, c := Exec(Start(EMPTY), Undisturbed(r)), Exec(Start(EMPTY), CaughtByCrash(r));
            && Quiescent(u) && Quiescent(c) && u.requests == c.requests
            && (u == c <==> r.feeRate % 100 == 0)
  {
    hide Exec;
    UndisturbedRests(r);
    CaughtRests(r);
    StoredRateExact(r.feeRate);
    assert Alone(r, r.feeRate).resting[10001].feeRate == r.feeRate;
    assert Alone(r, StoredRate(r.feeRate)).resting[10001].feeRate == StoredRate(r.feeRate);
  }

  lemma Submitted(r: Request)
    ensures var o := NewOrder(10001, r);
            Exec(Start(EMPTY), [Load([]), ReadMax, Submit(r)]) ==
            State(InsertRow(EMPTY, o), Generating(10001), [o], [], map[], None, [], [r])
  {
    hide MaxOrderId, InsertRow;
    EmptyTables();
    ExecThree(Start(EMPTY), Load([]), ReadMax, Submit(r));
  }

  lemma SendsOne(s: State, o: Order)
    requires s.unsent == [o] && s.queue == []
    ensures Do(s, Send) == s.(unsent := [], queue := [o])
  {
  }

  lemma Reloaded(s: State, r: Request)
    requires s.tables == InsertRow(EMPTY, NewOrder(10001, r)) && s.requests == [r]
    ensures var o := NewOrder(10001, r).(feeRate := StoredRate(r.feeRate));
            Do(Exec(s, [Crash, Load([10001]), Send]), ReadMax) ==
            State(s.tables, Generating(10001), [], [o], map[], None, [], [r])
  {
    hide Do, MaxOrderId, InsertRow, StoredRate;
    OneRow(r);
    ExecThree(s, Crash, Load([10001]), Send);
    var u := Do(Do(s, Crash), Load([10001]));
    CrashAndLoad(s, [10001]);
    SendsOne(u, NewOrder(10001, r).(feeRate := StoredRate(r.feeRate)));
    ReadsMax(Do(u, Send));
  }

  lemma CrashAndLoad(s: State, ids: seq<nat>)
    requires Selection(s.tables, ids) && InTurn(s.tables, ids)
    ensures Do(Do(s, Crash), Load(ids)) ==
            State(s.tables, Loaded, RowsOf(s.tables, ids), [], map[], None, [], s.requests)
  {
    assert ApplyAll(s.tables, []) == s.tables;
  }

  lemma ReadsMax(s: State)
    requires s.phase.Loaded? && s.unsent == []
    ensures Do(s, ReadMax) == s.(phase := Generating(MaxOrderId(s.tables)))
  {
  }

  /** A restart next to a live engine with nothing pending, for every request: the resting order
      keeps its rate if and only if the rate has at most four decimals. */
  lemma OneOrderRestart(r: Request)
    ensures var s := Exec(Start(EMPTY), Undisturbed(r));
            && Quiescent(s) && ValidBook(s.resting) && ValidTables(s.tables)
            && Selection(s.tables, [10001])
            && (Resent(s.resting, s.tables, [10001]).book == s.resting <==> r.feeRate % 100 == 0)
  {
    hide Exec, Resent;
    var s := Exec(Start(EMPTY), Undisturbed(r));
    OneOrderCrash(r);
    UndisturbedRests(r);
    OnlyRow(s.tables);
    ResendExactlyWithRates(EMPTY, Undisturbed(r), [10001]);
    ResendExactlyAllRates(EMPTY, Undisturbed(r), [10001]);
    assert s.resting.Keys == {10001} && s.resting[10001].feeRate == r.feeRate;
  }

  // ---- two orders that trade ----

  /// A sell order and a buy order of the same quantity that accepts its price.
  predicate Pair(a: Request, b: Request) {
    !a.buys && b.buys && a.price <= b.price && a.quantity == b.quantity
  }

  function Sell(a: Request): Order { NewOrder(10001, a) }

  function Buy(b: Request): Order { NewOrder(10002, b) }

  function AsStored(o: Order): Order { o.(feeRate := StoredRate(o.feeRate)) }

  function BothRows(a: Request, b: Request): Tables {
    InsertRow(InsertRow(EMPTY, Sell(a)), Buy(b))
  }

  lemma TwoRows(a: Request, b: Request)
    ensures BothRows(a, b) ==
            Tables(map[10001 := Row(AsStored(Sell(a)), INITIAL), 10002 := Row(AsStored(Buy(b)), INITIAL)], [])
    ensures MaxOrderId(BothRows(a, b)) == 10002
    ensures Selection(BothRows(a, b), [10001, 10002]) && InTurn(BothRows(a, b), [10001, 10002])
    ensures RowsOf(BothRows(a, b), [10001, 10002]) == [AsStored(Sell(a)), AsStored(Buy(b))]
    ensures Selection(BothRows(a, b), [10002, 10001])
    ensures RowsOf(BothRows(a, b), [10002, 10001]) == [AsStored(Buy(b)), AsStored(Sell(a))]
  {
    hide StoredRate;
    var t := BothRows(a, b);
    assert 10002 in t.orders && t.orders.Keys == {10001, 10002};
    assert OpenRows(t).Keys == {10001, 10002};
  }

  /// o trades the whole of the only resting order m.
  lemma PairMatches(m: Order, o: Order)
    requires m.filled == 0 && o.filled == 0 && 0 < m.quantity == o.quantity
    requires Crosses(o, m) && m.orderId != o.orderId
    ensures var b: Book := map[m.orderId := m];
            var x := Execute(o, m);
            && ValidBook(b) && CanTrade(b, o) && NextTrade(b, o) == x
            && Settle(b, x.maker) == map[] && !CanTrade(map[], x.taker)
            && x.taker.filled == o.quantity && x.record.quantity == o.quantity
            && !x.taker.Open()
  {
    var b: Book := map[m.orderId := m];
    assert m.orderId in Candidates(b, o);
    assert IsBest(b, Candidates(b, o), o.Buys(), m.orderId);
    BestUnique(b, Candidates(b, o), o.Buys(), m.orderId);
    var none: Book := map[];
    assert b - {m.orderId} == none;
    assert Candidates(map[], Execute(o, m).taker) == {};
  }

  lemma PairTrades(s: State, m: Order, o: Order)
    requires m.filled == 0 && o.filled == 0 && 0 < m.quantity == o.quantity
    requires Crosses(o, m) && m.orderId != o.orderId
    requires s.taker.None? && s.queue == [o] && s.resting == map[m.orderId := m]
    ensures Exec(s, [Take, TradeOnce, Finish]) ==
            s.(queue := [], resting := map[], results := s.results + [Execute(o, m).Report()])
  {
    hide MaxOrderId, CanTrade, NextTrade, Execute, Settle;
    PairMatches(m, o);
    ExecThree(s, Take, TradeOnce, Finish);
    var u := Do(Do(s, Take), TradeOnce);
    assert u.results + [] == u.results;
  }

  lemma PairProcessed(m: Order, o: Order)
    requires m.filled == 0 && o.filled == 0 && 0 < m.quantity == o.quantity
    requires Crosses(o, m) && m.orderId != o.orderId
    ensures m.WellFormed() && o.WellFormed()
    ensures ProcessAll(map[], [m, o]) ==
            Outcome(map[], [UnmatchedOrder(m), Execute(o, m).Report()])
  {
    hide CanTrade, NextTrade, Execute, Settle, Match;
    var none: Book := map[];
    assert !CanTrade(none, m) by { NoneToTrade(m); }
    MatchStops(none, m);
    var b: Book := map[m.orderId := m];
    assert Process(none, m) == Outcome(b, [UnmatchedOrder(m)]);
    PairMatches(m, o);
    var x := Execute(o, m);
    MatchUnfold(b, o);
    MatchStops(map[], x.taker);
    assert Process(b, o) == Outcome(map[], [x.Report()]);
    assert [m, o][1..] == [o] && [o][1..] == [];
    assert ProcessAll(b, [o]) == Outcome(map[], [x.Report()]);
  }

  lemma NoneToTrade(o: Order)
    ensures !CanTrade(map[], o)
  {
    assert Candidates(map[], o) == {};
  }

  /// Both orders are submitted and matched; nothing has been persisted.
  function Matched(a: Request, b: Request): seq<Step> {
    [Load([]), ReadMax, Submit(a)] + ([Send, Take, Finish] + ([Submit(b), Send] + [Take, TradeOnce, Finish]))
  }

  lemma FirstRests(a: Request)
    ensures Exec(Start(EMPTY), [Load([]), ReadMax, Submit(a)] + [Send, Take, Finish]) ==
            State(InsertRow(EMPTY, Sell(a)), Generating(10001), [], [],
                  map[10001 := Sell(a)], None, [UnmatchedOrder(Sell(a))], [a])
  {
    hide InsertRow, MaxOrderId, CanTrade;
    Submitted(a);
    NoneToTrade(Sell(a));
    var s := Exec(Start(EMPTY), [Load([]), ReadMax, Submit(a)]);
    ExecConcat(Start(EMPTY), [Load([]), ReadMax, Submit(a)], [Send, Take, Finish]);
    ExecThree(s, Send, Take, Finish);
    assert Rest(map[], Sell(a)) == map[10001 := Sell(a)];
  }

  lemma MatchedEnds(a: Request, b: Request)
    requires Pair(a, b)
    ensures Exec(Start(EMPTY), Matched(a, b)) ==
            State(BothRows(a, b), Generating(10002), [], [], map[], None,
                  [UnmatchedOrder(Sell(a)), Execute(Buy(b), Sell(a)).Report()], [a, b])
  {
    hide InsertRow, MaxOrderId, Execute, MayLoad, Loading, CanTrade, NextTrade, Settle;
    var begin, more := [Load([]), ReadMax, Submit(a)] + [Send, Take, Finish], [Submit(b), Send];
    var last := [Take, TradeOnce, Finish];
    assert Matched(a, b) == begin + (more + last);
    FirstRests(a);
    var s := Exec(Start(EMPTY), begin);
    ExecConcat(Start(EMPTY), begin, more + last);
    ExecConcat(s, more, last);
    ExecTwo(s, Submit(b), Send);
    PairTrades(Exec(s, more), Sell(a), Buy(b));
  }

  lemma ExecTwo(s: State, a: Step, b: Step)
    ensures Exec(s, [a, b]) == Do(Do(s, a), b)
  {
    hide Do;
    assert [a, b] == [a] + [b] && [b] == [b] + [];
    ExecCons(s, a, [b]);
    ExecCons(Do(s, a), b, []);
    ExecNone(Do(Do(s, a), b));
  }

  /** A generator that comes up while a trade is still on its way to the tables. A sell order, and
      after it a buy order of the same quantity that accepts its price, leave the books empty, as
      a crash of the engine alone would; resending them leaves the books as they are, but the
      whole quantity is traded a second time, and the trade list ends with twice the quantity. */
  lemma DoubledTrade(a: Request, b: Request)
    requires Pair(a, b)
    ensures var s := Exec(Start(EMPTY), Matched(a, b));
            && Idle(s) && s.resting == map[] && ValidTables(s.tables)
            && Selection(s.tables, [10001, 10002])
            && var r := Resent(s.resting, s.tables, [10001, 10002]);
               && r.book == s.resting
               && Volume(s.results) == a.quantity && Volume(r.messages) == a.quantity
               && TradedBy(ApplyAll(s.tables, s.results + r.messages).trades, 10001) == 2 * a.quantity
  {
    hide Execute, Exec, InsertRow, ProcessAll;
    var s := Exec(Start(EMPTY), Matched(a, b));
    MatchedEnds(a, b);
    TwoRows(a, b);
    var m, o := Sell(a), Buy(b);
    PairMatches(m, o);
    PairMatches(AsStored(m), AsStored(o));
    PairProcessed(AsStored(m), AsStored(o));
    ReachableValid(EMPTY, Matched(a, b));
    var resent := Resent(s.resting, s.tables, [10001, 10002]).messages;
    var x, y := Execute(o, m), Execute(AsStored(o), AsStored(m));
    assert s.results == [UnmatchedOrder(m), x.Report()];
    assert resent == [UnmatchedOrder(AsStored(m)), y.Report()];
    PairVolume(m, x);
    PairVolume(AsStored(m), y);
    ApplyAllTrades(s.tables, s.results + resent);
    PairTradesOf(UnmatchedOrder(m), x);
    PairTradesOf(UnmatchedOrder(AsStored(m)), y);
    TradesConcat(s.results, resent);
    TradedByAppend([], TradeRow(x.record), 10001);
    TradedByAppend([TradeRow(x.record)], TradeRow(y.record), 10001);
    assert [] + [TradeRow(x.record)] == [TradeRow(x.record)];
  }

  /** Two rows that still have something to do and come in the wrong order, as two orders of the
      same second may: the trade is made at the price of the sell order, or at that of the buy
      order, and the other order counts as the taker. */
  lemma SwappedRows(a: Request, b: Request)
    requires Pair(a, b)
    ensures var t, none := BothRows(a, b), map[];
            && ValidTables(t) && Selection(t, [10001, 10002]) && Selection(t, [10002, 10001])
            && InTurn(t, [10001, 10002]) && !InTurn(t, [10002, 10001])
            && var p, q := Resent(none, t, [10001, 10002]).messages, Resent(none, t, [10002, 10001]).messages;
               && |p| == |q| == 2 && p[1].Trade? && q[1].Trade?
               && p[1].record.price == a.price && p[1].record.takerId == 10002
               && q[1].record.price == b.price && q[1].record.takerId == 10001
  {
    hide Execute, ProcessAll, StoredRate, RowsOf, InTurn;
    TwoRows(a, b);
    var m, o := AsStored(Sell(a)), AsStored(Buy(b));
    PairProcessed(m, o);
    PairProcessed(o, m);
    PairPriced(m, o);
    PairPriced(o, m);
    NotInTurn(BothRows(a, b));
  }

  lemma PairPriced(m: Order, o: Order)
    requires m.Open() && o.Open()
    ensures var r := Execute(o, m).record; r.price == m.price && r.takerId == o.orderId
  {
  }

  lemma NotInTurn(t: Tables)
    requires 10002 in t.orders && t.orders[10002].status == INITIAL
    ensures !InTurn(t, [10002, 10001])
  {
    assert Unsettled(t, 10002);
    var ids: seq<nat> := [10002, 10001];
    assert !(ids[0] < ids[1]);
  }

  lemma PairVolume(m: Order, x: Execution)
    ensures Volume([UnmatchedOrder(m), x.Report()]) == x.record.quantity
  {
    assert [UnmatchedOrder(m), x.Report()][1..] == [x.Report()];
    assert Volume([x.Report()]) == x.record.quantity + Volume([]);
  }

  lemma PairTradesOf(m: Message, x: Execution)
    requires !m.Trade?
    ensures TradesOf([m, x.Report()]) == [TradeRow(x.record)]
  {
    assert [m, x.Report()][1..] == [x.Report()];
    assert TradesOf([x.Report()]) == [TradeRow(x.record)] + TradesOf([]);
  }

  // ---- a crash between two matching orders ----

  /// The second order is caught by a crash; everything is then reloaded and matched.
  function MatchedAfterCrash(a: Request, b: Request): seq<Step> {
    ([Load([]), ReadMax, Submit(a)] + [Send, Take, Finish]) +
    (Reloading(b) + ([Take, Finish] + [Take, TradeOnce, Finish]))
  }

  function Reloading(b: Request): seq<Step> {
    [Submit(b), Crash, Load([10001, 10002])] + [Send, Send, ReadMax]
  }

  lemma MatchedAfterCrashEnds(a: Request, b: Request)
    requires Pair(a, b)
    ensures var m, o := AsStored(Sell(a)), AsStored(Buy(b));
            Exec(Start(EMPTY), MatchedAfterCrash(a, b)) ==
            State(BothRows(a, b), Generating(10002), [], [], map[], None,
                  [UnmatchedOrder(m), Execute(o, m).Report()], [a, b])
  {
    hide InsertRow, MaxOrderId, Execute, CanTrade, StoredRate;
    var m, o := AsStored(Sell(a)), AsStored(Buy(b));
    var begin := [Load([]), ReadMax, Submit(a)] + [Send, Take, Finish];
    var reload, report, last := Reloading(b), [Take, Finish], [Take, TradeOnce, Finish];
    FirstRests(a);
    var s := Exec(Start(EMPTY), begin);
    ExecConcat(Start(EMPTY), begin, reload + (report + last));
    ExecConcat(s, reload, report + last);
    BothReloaded(s, a, b);
    var v := Exec(s, reload);
    ExecConcat(v, report, last);
    ExecTwo(v, Take, Finish);
    NoneToTrade(m);
    assert Rest(map[], m) == map[10001 := m];
    PairTrades(Exec(v, report), m, o);
  }

  lemma BothReloaded(s: State, a: Request, b: Request)
    requires s.tables == InsertRow(EMPTY, Sell(a)) && s.phase == Generating(10001)
    requires s.unsent == [] && s.requests == [a]
    ensures Exec(s, Reloading(b)) ==
            State(BothRows(a, b), Generating(10002), [], [AsStored(Sell(a)), AsStored(Buy(b))],
                  map[], None, [], [a, b])
  {
    hide InsertRow, MaxOrderId, CanTrade, StoredRate, Selection, RowsOf, InTurn;
    TwoRows(a, b);
    var crash, sends := [Submit(b), Crash, Load([10001, 10002])], [Send, Send, ReadMax];
    ExecConcat(s, crash, sends);
    ExecThree(s, Submit(b), Crash, Load([10001, 10002]));
    ExecThree(Exec(s, crash), Send, Send, ReadMax);
  }

  /// Both pending messages go into the tables.
  lemma PersistBoth(s: State, m: Order, x: Execution)
    requires s.results == [UnmatchedOrder(m), x.Report()]
    ensures var e := Exec(s, [Persist, Persist]);
            && e == s.(results := [], tables := ApplyAll(s.tables, s.results))
            && e.tables.trades == s.tables.trades + [TradeRow(x.record)]
            && e.tables.orders == Post(s.tables.orders, WritesOf(s.results))
  {
    hide Apply, MaxOrderId, CanTrade;
    ExecTwo(s, Persist, Persist);
    ApplyAllTrades(s.tables, s.results);
    ApplyAllRows(s.tables, s.results);
    PairTradesOf(UnmatchedOrder(m), x);
    var t := Apply(s.tables, s.results[0]);
    assert s.results[1..] == [x.Report()] && [x.Report()][1..] == [];
    assert ApplyAll(t, [x.Report()]) == Apply(t, x.Report());
  }

  /// The record of one unit traded at price one.
  lemma PairRecord(m: Order, o: Order)
    requires m.filled == 0 && o.filled == 0 && m.quantity == o.quantity == m.price == 1_000_000
    ensures Execute(o, m).record ==
            TradeRecord(o.userId, m.userId, o.orderId, m.orderId, o.side, 1_000_000, 1_000_000,
                        Fee(o.feeRate, 1_000_000, 1_000_000), Fee(m.feeRate, 1_000_000, 1_000_000))
    ensures Execute(o, m).taker == o.(filled := 1_000_000)
    ensures Execute(o, m).maker == m.(filled := 1_000_000)
  {
  }

  lemma SameWrites(m: Order, x: Execution, n: Order, y: Execution)
    requires Strip(m) == Strip(n) && Strip(x.taker) == Strip(y.taker) && Strip(x.maker) == Strip(y.maker)
    ensures WritesOf([UnmatchedOrder(m), x.Report()]) == WritesOf([UnmatchedOrder(n), y.Report()])
  {
    assert [UnmatchedOrder(m), x.Report()][1..] == [x.Report()];
    assert [UnmatchedOrder(n), y.Report()][1..] == [y.Report()];
    SamePosting(m, n);
    SamePosting(x.taker, y.taker);
    SamePosting(x.maker, y.maker);
    assert WritesOf([x.Report()]) == Writes(x.Report()) + WritesOf([]);
    assert WritesOf([y.Report()]) == Writes(y.Report()) + WritesOf([]);
  }

  lemma SamePosting(m: Order, n: Order)
    requires Strip(m) == Strip(n)
    ensures PostingOf(m) == PostingOf(n)
  {
    assert Strip(m).quantity == m.quantity && Strip(m).filled == m.filled && Strip(m).orderId == m.orderId;
    assert Strip(n).quantity == n.quantity && Strip(n).filled == n.filled && Strip(n).orderId == n.orderId;
  }

  /** Where recovery shows in the tables. One unit is sold at price one, and a crash catches the
      buy order on its way: the order rows end as in the undisturbed run, and the recorded trade
      is the same, fees included, if and only if both rates have at most four decimals. */
  lemma TradeAfterCrash(a: Request, b: Request)
    requires Pair(a, b) && a.price == 1_000_000 && a.quantity == 1_000_000
    ensures var persist := [Persist, Persist];
            var u := Exec(Start(EMPTY), Matched(a, b) + persist);
            var c := Exec(Start(EMPTY), MatchedAfterCrash(a, b) + persist);
            && Quiescent(u) && Quiescent(c) && u.requests == c.requests
            && u.tables.orders == c.tables.orders
            && (u.tables.trades == c.tables.trades <==> a.feeRate % 100 == 0 && b.feeRate % 100 == 0)
  {
    hide Execute, Exec, Do, InsertRow, StoredRate, Fee, StoredFee;
    var persist := [Persist, Persist];
    ExecConcat(Start(EMPTY), Matched(a, b), persist);
    ExecConcat(Start(EMPTY), MatchedAfterCrash(a, b), persist);
    MatchedEnds(a, b);
    MatchedAfterCrashEnds(a, b);
    TwoRows(a, b);
    var m, o := Sell(a), Buy(b);
    var x, y := Execute(o, m), Execute(AsStored(o), AsStored(m));
    PersistBoth(Exec(Start(EMPTY), Matched(a, b)), m, x);
    PersistBoth(Exec(Start(EMPTY), MatchedAfterCrash(a, b)), AsStored(m), y);
    PairRecord(m, o);
    PairRecord(AsStored(m), AsStored(o));
    SameWrites(m, x, AsStored(m), y);
    SameRecords(m, o);
    var u := Exec(Start(EMPTY), Matched(a, b) + persist).tables.trades;
    var c := Exec(Start(EMPTY), MatchedAfterCrash(a, b) + persist).tables.trades;
    assert u == [TradeRow(x.record)] && c == [TradeRow(y.record)];
    assert u == c <==> u[0] == c[0];
  }

  lemma SameRecords(m: Order, o: Order)
    requires m.filled == 0 && o.filled == 0 && m.quantity == o.quantity == m.price == 1_000_000
    ensures TradeRow(Execute(o, m).record) == TradeRow(Execute(AsStored(o), AsStored(m)).record) <==>
            m.feeRate % 100 == 0 && o.feeRate % 100 == 0
  {
    hide Execute, StoredRate, Fee, StoredFee;
    PairRecord(m, o);
    PairRecord(AsStored(m), AsStored(o));
    FeesSurviveReload(m.feeRate);
    FeesSurviveReload(o.feeRate);
  }
}
