/** Fee rates across recovery. The fee_rate column keeps four decimals, so an order that is
    reloaded may carry another rate than the one it was first sent with. Apart from fee rates
    and fees, recovery is exact for all rates; with them, exactly for rates of four decimals. */
module Rates {
  import opened Fees
  import opened Orders
  import opened Matching
  import opened PriceLevels
  import opened Engine
  import opened Tables
  import opened Canonical
  import opened Protocol
  import opened Pipeline
  import opened Recovery
  import opened Sums
  import opened History

  /// The stored fee for one unit at price one is the rate itself, in 1e-8 units.
  lemma UnitFee(feeRate: int)
    ensures StoredFee(Fee(feeRate, 1_000_000, 1_000_000)) == 100 * feeRate
  {
    RoundIdempotent(100 * feeRate, FEE_UNIT);
    RoundIdempotent(feeRate, TEXT_UNIT);
    assert feeRate * 1_000_000 * 1_000_000 == 100 * feeRate * FEE_UNIT;
  }

  /** All recorded fees of an order survive a reload if and only if its rate has at most four
      decimals; one unit at price one tells the difference. */
  lemma FeesSurviveReload(feeRate: int)
    ensures (forall q, p :: StoredFee(Fee(StoredRate(feeRate), q, p)) == StoredFee(Fee(feeRate, q, p)))
            <==> feeRate % 100 == 0
    ensures (StoredFee(Fee(StoredRate(feeRate), 1_000_000, 1_000_000)) ==
             StoredFee(Fee(feeRate, 1_000_000, 1_000_000)))
            <==> feeRate % 100 == 0
  {
    StoredRateExact(feeRate);
    UnitFee(feeRate);
    UnitFee(StoredRate(feeRate));
  }

  // ---- forgetting rates and fees ----

  function Strip(o: Order): Order { o.(feeRate := 0) }

  function StripRecord(r: TradeRecord): TradeRecord { r.(takerFee := 0, makerFee := 0) }

  function StripMessage(m: Message): Message {
    match m
    case UnmatchedOrder(o) => UnmatchedOrder(Strip(o))
    case Trade(t, k, r) => Trade(Strip(t), Strip(k), StripRecord(r))
  }

  function StripBook(b: Book): Book {
    map id | id in b :: Strip(b[id])
  }

  function StripOrders(os: seq<Order>): seq<Order> {
    seq(|os|, i requires 0 <= i < |os| => Strip(os[i]))
  }

  function StripMessages(ms: seq<Message>): seq<Message> {
    seq(|ms|, i requires 0 <= i < |ms| => StripMessage(ms[i]))
  }

  function StripRows(rows: map<nat, Row>): map<nat, Row> {
    map id | id in rows :: rows[id].(order := Strip(rows[id].order))
  }

  function StripTables(t: Tables): Tables {
    Tables(StripRows(t.orders), seq(|t.trades|, i requires 0 <= i < |t.trades| => StripRecord(t.trades[i])))
  }

  function StripRequest(r: Request): Request {
    Draw(r.buys, r.price, r.quantity, 0)
  }

  function StripRequests(rs: seq<Request>): seq<Request> {
    seq(|rs|, i requires 0 <= i < |rs| => StripRequest(rs[i]))
  }

  function StripTaker(t: Option<Order>): Option<Order> {
    if t.Some? then Some(Strip(t.value)) else None
  }

  function StripState(s: State): State {
    State(StripTables(s.tables), s.phase, StripOrders(s.unsent), StripOrders(s.queue),
          StripBook(s.resting), StripTaker(s.taker), StripMessages(s.results),
          StripRequests(s.requests))
  }

  function StripStep(step: Step): Step {
    if step.Submit? then Submit(StripRequest(step.request)) else step
  }

  function StripSteps(steps: seq<Step>): seq<Step> {
    seq(|steps|, i requires 0 <= i < |steps| => StripStep(steps[i]))
  }

  // ---- every step commutes with forgetting ----

  lemma StripExecute(t: Order, m: Order)
    requires t.Open() && m.Open()
    ensures var x := Execute(t, m);
            Execute(Strip(t), Strip(m)) == Execution(Strip(x.taker), Strip(x.maker), StripRecord(x.record))
  {
    var q := Min(t.Remaining(), m.Remaining());
    assert 0 * q * m.price == 0;
    RoundIdempotent(0, FEE_UNIT);
  }

  lemma StripBest(b: Book, t: Order)
    ensures Candidates(StripBook(b), Strip(t)) == Candidates(b, t)
    ensures ValidBook(StripBook(b)) <==> ValidBook(b)
    ensures CanTrade(StripBook(b), Strip(t)) <==> CanTrade(b, t)
  {
    var c := StripBook(b);
    if ValidBook(c) {
      forall id | id in b ensures b[id].orderId == id && b[id].Open() {
        assert c[id].orderId == id && c[id].Open();
      }
    }
    assert Candidates(c, Strip(t)) == Candidates(b, t);
  }

  lemma StripTrade(b: Book, t: Order)
    requires ValidBook(b) && CanTrade(b, t)
    ensures ValidBook(StripBook(b)) && CanTrade(StripBook(b), Strip(t))
    ensures var x := NextTrade(b, t);
            && NextTrade(StripBook(b), Strip(t)) ==
               Execution(Strip(x.taker), Strip(x.maker), StripRecord(x.record))
            && Settle(StripBook(b), Strip(x.maker)) == StripBook(Settle(b, x.maker))
  {
    StripBest(b, t);
    var ids := Candidates(b, t);
    var k := Best(b, ids, t.Buys());
    assert IsBest(StripBook(b), ids, t.Buys(), k);
    BestUnique(StripBook(b), ids, t.Buys(), k);
    StripExecute(t, b[k]);
  }

  lemma StripApply(t: Tables, m: Message)
    ensures StripTables(Apply(t, m)) == Apply(StripTables(t), StripMessage(m))
  {
    match m
    case UnmatchedOrder(o) => StripUpdate(t.orders, o);
    case Trade(taker, maker, record) =>
      StripUpdate(t.orders, taker);
      StripUpdate(UpdateRow(t.orders, taker), maker);
  }

  lemma StripUpdate(rows: map<nat, Row>, o: Order)
    ensures StripRows(UpdateRow(rows, o)) == UpdateRow(StripRows(rows), Strip(o))
  {
  }

  lemma StripInsert(t: Tables, o: Order)
    ensures StripTables(InsertRow(t, o)) == InsertRow(StripTables(t), Strip(o))
  {
    StoredRateExact(0);
    if o.orderId !in t.orders {
      assert StripTables(InsertRow(t, o)).orders == InsertRow(StripTables(t), Strip(o)).orders;
    }
  }

  lemma StripSelection(t: Tables, ids: seq<nat>)
    ensures Selection(StripTables(t), ids) <==> Selection(t, ids)
    ensures Selection(t, ids) ==> StripOrders(RowsOf(t, ids)) == RowsOf(StripTables(t), ids)
  {
    assert OpenRows(StripTables(t)).Keys == OpenRows(t).Keys;
    if Selection(t, ids) {
      assert forall i | 0 <= i < |ids| :: ids[i] in ids && ids[i] in OpenRows(t);
    }
  }

  lemma StripInTurn(t: Tables, ids: seq<nat>)
    ensures InTurn(StripTables(t), ids) <==> InTurn(t, ids)
  {
    hide Unsettled, StripTables;
    forall x: nat ensures Unsettled(StripTables(t), x) <==> Unsettled(t, x) {
      StripUnsettled(t, x);
    }
    forall x: nat ensures SettledUpTo(StripTables(t), x) <==> SettledUpTo(t, x) {}
  }

  lemma StripMayLoad(s: State, ids: seq<nat>)
    ensures MayLoad(StripState(s), ids) <==> MayLoad(s, ids)
    ensures MayLoad(s, ids) ==> StripState(Loading(s, ids)) == Loading(StripState(s), ids)
  {
    hide Selection, InTurn, RowsOf, ApplyAll, StripTables, StripBook;
    StripSelection(s.tables, ids);
    StripInTurn(ApplyAll(s.tables, s.results), ids);
    StripApplyAll(s.tables, s.results);
    StripDrained(s);
  }

  lemma StripDrained(s: State)
    ensures Drained(StripState(s)) <==> Drained(s)
  {
    var ms := StripMessages(s.results);
    assert forall i | 0 <= i < |ms| :: ms[i].Trade? <==> s.results[i].Trade?;
    if Drained(StripState(s)) {
      forall m | m in s.results ensures !m.Trade? {
        var i :| 0 <= i < |s.results| && s.results[i] == m;
        assert ms[i] in ms;
      }
    }
  }

  lemma StripMax(t: Tables)
    ensures MaxOrderId(StripTables(t)) == MaxOrderId(t)
  {
    SameMax(t, StripTables(t));
  }

  lemma StripDo(s: State, step: Step)
    ensures StripState(Do(s, step)) == Do(StripState(s), StripStep(step))
  {
    hide Loading, MayLoad, MaxOrderId, InsertRow, Apply, CanTrade, ValidBook, NextTrade, Settle,
         StripTables, StripBook;
    match step
    case Load(ids) => StripMayLoad(s, ids);
    case Send =>
    case ReadMax => StripMax(s.tables);
    case Submit(r) => if s.phase.Generating? && s.unsent == [] { StripSubmit(s, r); }
    case Take =>
    case TradeOnce => StripTradeOnce(s);
    case Finish => StripFinish(s);
    case Persist => if s.results != [] { StripApply(s.tables, s.results[0]); }
    case Crash => StripNothing();
    case EngineCrash(_) => StripNothing();
    case Restart(ids) => StripMayLoad(s, ids);
  }

  lemma StripNothing()
    ensures StripBook(map[]) == map[]
  {
  }

  lemma StripSubmit(s: State, r: Request)
    requires s.phase.Generating? && s.unsent == []
    ensures StripState(Do(s, Submit(r))) == Do(StripState(s), Submit(StripRequest(r)))
  {
    hide InsertRow, StripTables, StripBook;
    var o := NewOrder(s.phase.counter + 1, r);
    StripInsert(s.tables, o);
    assert Strip(o) == NewOrder(s.phase.counter + 1, StripRequest(r));
    assert StripOrders([o]) == [Strip(o)];
    assert StripRequests(s.requests + [r]) == StripRequests(s.requests) + [StripRequest(r)];
  }

  lemma StripEnabled(s: State)
    ensures TradeEnabled(StripState(s)) <==> TradeEnabled(s)
  {
    if s.taker.Some? {
      StripBest(s.resting, s.taker.value);
    }
  }

  lemma StripTradeOnce(s: State)
    ensures StripState(Do(s, TradeOnce)) == Do(StripState(s), TradeOnce)
  {
    hide CanTrade, ValidBook, NextTrade, Settle, StripTables, StripBook;
    StripEnabled(s);
    if TradeEnabled(s) {
      StripTrade(s.resting, s.taker.value);
      var m := NextTrade(s.resting, s.taker.value).Report();
      assert StripMessages(s.results + [m]) == StripMessages(s.results) + [StripMessage(m)];
    }
  }

  lemma StripFinish(s: State)
    ensures StripState(Do(s, Finish)) == Do(StripState(s), Finish)
  {
    hide CanTrade, ValidBook, TradeEnabled, StripTables;
    StripEnabled(s);
    if s.taker.Some? && !TradeEnabled(s) {
      var o := s.taker.value;
      assert StripBook(Rest(s.resting, o)) == Rest(StripBook(s.resting), Strip(o));
      assert StripMessages(RestMessages(o)) == RestMessages(Strip(o));
      assert StripMessages(s.results + RestMessages(o)) ==
             StripMessages(s.results) + StripMessages(RestMessages(o));
    }
  }

  lemma {:induction false} StripExec(s: State, steps: seq<Step>)
    ensures StripState(Exec(s, steps)) == Exec(StripState(s), StripSteps(steps))
    decreases |steps|
  {
    hide StripState, Do;
    if steps != [] {
      StripDo(s, steps[0]);
      StripExec(Do(s, steps[0]), steps[1..]);
      assert StripSteps(steps)[1..] == StripSteps(steps[1..]);
    }
  }

  lemma StripStart(t: Tables)
    ensures StripState(Start(t)) == Start(StripTables(t))
    ensures ValidTables(t) ==> ValidTables(StripTables(t))
  {
    StripNothing();
  }

  lemma StripGood(steps: seq<Step>)
    ensures GoodRun(StripSteps(steps))
  {
  }

  lemma StripQuiescent(s: State)
    requires Quiescent(s)
    ensures Quiescent(StripState(s))
  {
  }

  /** For arbitrary fee rates: two runs from the same tables with the same submitted orders,
      whatever their interleavings and crashes, end in the same order rows, trade list and
      books, but for fee rates and fees. */
  lemma RunsAgreeUpToFees(t: Tables, a: seq<Step>, b: seq<Step>)
    requires ValidTables(t)
    requires Quiescent(Exec(Start(t), a)) && Quiescent(Exec(Start(t), b))
    requires Exec(Start(t), a).requests == Exec(Start(t), b).requests
    ensures StripState(Exec(Start(t), a)) == StripState(Exec(Start(t), b))
  {
    hide Exec, GoodRun, StripTables, ValidTables, Quiescent;
    StripStart(t);
    StripExec(Start(t), a);
    StripExec(Start(t), b);
    StripGood(a);
    StripGood(b);
    StripQuiescent(Exec(Start(t), a));
    StripQuiescent(Exec(Start(t), b));
    RunsAgree(StripTables(t), StripSteps(a), StripSteps(b));
  }

  /** Checkpoint recovery for arbitrary rates: a crash at any point of any run, whether or not the
      result queue is lost with it, followed by a reload, ends as the undisturbed run does, but
      for fee rates and fees. */
  lemma CheckpointRecoveryAllRates(t: Tables, prefix: seq<Step>, lost: Step, recovered: seq<Step>,
                                   undisturbed: seq<Step>)
    requires ValidTables(t) && (lost.Crash? || lost.EngineCrash?)
    requires Quiescent(Exec(Start(t), prefix + ([lost] + recovered)))
    requires Quiescent(Exec(Start(t), prefix + undisturbed))
    requires Exec(Start(t), prefix + ([lost] + recovered)).requests ==
             Exec(Start(t), prefix + undisturbed).requests
    ensures var s := Exec(Start(t), prefix);
            StripState(Exec(Do(s, lost), recovered)) == StripState(Exec(s, undisturbed))
  {
    hide Exec, Do, Quiescent, StripState, ValidTables;
    ExecCons(Exec(Start(t), prefix), lost, recovered);
    ExecConcat(Start(t), prefix, [lost] + recovered);
    ExecConcat(Start(t), prefix, undisturbed);
    RunsAgreeUpToFees(t, prefix + ([lost] + recovered), prefix + undisturbed);
  }

  // ---- the other results, for arbitrary rates ----

  /** The pipeline invariant holds in every reachable state, but for rates and fees. */
  lemma PipelineInvariantAllRates(t: Tables, steps: seq<Step>)
    requires ValidTables(t)
    ensures Coherent(StripState(Exec(Start(t), steps)))
  {
    hide Exec, Coherent, ValidTables, StripTables;
    StripStart(t);
    StripExec(Start(t), steps);
    StripGood(steps);
    PipelineInvariant(StripTables(t), StripSteps(steps));
  }

  lemma {:induction false} StripApplyAll(t: Tables, ms: seq<Message>)
    ensures StripTables(ApplyAll(t, ms)) == ApplyAll(StripTables(t), StripMessages(ms))
    decreases |ms|
  {
    hide StripTables, Apply;
    if ms != [] {
      StripApply(t, ms[0]);
      StripApplyAll(Apply(t, ms[0]), ms[1..]);
      assert StripMessages(ms)[1..] == StripMessages(ms[1..]);
    }
  }

  /// Orders that agree but for the rate.
  lemma SameButRate(o: Order, p: Order)
    requires Strip(o) == Strip(p)
    ensures o == p.(feeRate := o.feeRate)
  {
    assert Strip(o).(feeRate := o.feeRate) == o && Strip(p).(feeRate := o.feeRate) == p.(feeRate := o.feeRate);
  }

  /** With the pending results applied, whatever the rates: the row of a resting order shows its
      fill and is MATCHING or PARTIALLY_FILLED accordingly, the row of the current taker shows its
      fill and once it has traded the status of that fill, and the order of any other row waits
      as it is recorded, or is completely filled and FULLY_FILLED. */
  lemma RowsMatchEngineAllRates(t: Tables, steps: seq<Step>, id: nat)
    requires ValidTables(t)
    requires var s := Exec(Start(t), steps);
             !s.phase.Down? && id in ApplyAll(s.tables, s.results).orders
    ensures var s := Exec(Start(t), steps);
            var row := ApplyAll(s.tables, s.results).orders[id];
            if id in s.resting then
              && row.order == s.resting[id].(feeRate := row.order.feeRate)
              && row.status == (if row.order.filled > 0 then PARTIALLY_FILLED else MATCHING)
            else if s.taker.Some? && s.taker.value.orderId == id then
              && row.order == s.taker.value.(feeRate := row.order.feeRate)
              && (row.order.filled > 0 ==>
                    row.status == if row.order.filled < row.order.quantity then PARTIALLY_FILLED
                                  else FULLY_FILLED)
            else
              || (exists o | o in s.queue + s.unsent :: row.order == o.(feeRate := row.order.feeRate))
              || (row.status == FULLY_FILLED && row.order.filled == row.order.quantity)
  {
    hide Exec, Coherent, ApplyAll;
    var s := Exec(Start(t), steps);
    var now, waiting := ApplyAll(s.tables, s.results), s.queue + s.unsent;
    PipelineInvariantAllRates(t, steps);
    StripApplyAll(s.tables, s.results);
    assert id in StripTables(now).orders;
    RowsMatchEngine(StripState(s), id);
    var row := now.orders[id];
    if id in s.resting {
      SameButRate(row.order, s.resting[id]);
    } else if s.taker.Some? && s.taker.value.orderId == id {
      SameButRate(row.order, s.taker.value);
    } else if Strip(row.order) in StripOrders(s.queue) + StripOrders(s.unsent) {
      assert StripOrders(s.queue) + StripOrders(s.unsent) == StripOrders(waiting);
      var i :| 0 <= i < |waiting| && StripOrders(waiting)[i] == Strip(row.order);
      SameButRate(row.order, waiting[i]);
      assert waiting[i] in waiting;
    }
  }

  /** The statuses of every row in every reachable state, before and after the pending results:
      FULLY_FILLED when the order is filled completely, PARTIALLY_FILLED when it is filled in part,
      and INITIAL or MATCHING only without a fill. */
  lemma StatusesAllRates(t: Tables, steps: seq<Step>, id: nat)
    requires ValidTables(t) && id in Exec(Start(t), steps).tables.orders
    ensures var s := Exec(Start(t), steps);
            && id in ApplyAll(s.tables, s.results).orders
            && forall row | row in {s.tables.orders[id], ApplyAll(s.tables, s.results).orders[id]} ::
                 && 0 <= row.order.filled <= row.order.quantity
                 && (row.status == FULLY_FILLED <==> row.order.filled == row.order.quantity)
                 && (row.status == PARTIALLY_FILLED <==> 0 < row.order.filled < row.order.quantity)
                 && (row.status == INITIAL || row.status == MATCHING <==> row.order.filled == 0)
  {
    hide Exec, Coherent, ApplyAll, StripTables, ValidTables;
    var s := Exec(Start(t), steps);
    var now := ApplyAll(s.tables, s.results);
    PipelineInvariantAllRates(t, steps);
    CoherentPending(StripState(s));
    PendingEnd(StripTables(s.tables), StripMessages(s.results));
    StripApplyAll(s.tables, s.results);
    StripValid(s.tables);
    StripValid(now);
    StatusExactly(s.tables, id);
    StatusExactly(now, id);
  }

  /** In a run without a crash that starts with no open rows, every order not yet taken is an
      INITIAL row or repeats a resting order, whatever the rates and the pending results. */
  lemma UnprocessedAreInitialAllRates(t: Tables, steps: seq<Step>)
    requires ValidTables(t) && OpenRows(t) == map[]
    requires forall i | 0 <= i < |steps| :: !steps[i].Crash? && !steps[i].EngineCrash?
    ensures var s := Exec(Start(t), steps);
            var rows := ApplyAll(s.tables, s.results).orders;
            forall o | o in s.queue + s.unsent ::
              || (o.orderId in s.resting && Strip(s.resting[o.orderId]) == Strip(o))
              || (o.orderId in rows && rows[o.orderId].status == INITIAL)
  {
    hide Exec, Coherent, ApplyAll;
    var s := Exec(Start(t), steps);
    StripStart(t);
    StripExec(Start(t), steps);
    StripGood(steps);
    assert OpenRows(StripTables(t)) == map[] by { StripNoOpenRows(t); }
    UnprocessedAreInitial(StripTables(t), StripSteps(steps));
    StripApplyAll(s.tables, s.results);
    StripWaiting(s);
  }

  lemma StripNoOpenRows(t: Tables)
    requires OpenRows(t) == map[]
    ensures OpenRows(StripTables(t)) == map[]
  {
    assert StripBook(OpenRows(t)) == OpenRows(StripTables(t));
    StripNothing();
  }

  lemma StripWaiting(s: State)
    requires WaitingInitial(StripState(s))
    requires StripTables(ApplyAll(s.tables, s.results)) == ApplyAll(StripTables(s.tables), StripMessages(s.results))
    ensures var rows := ApplyAll(s.tables, s.results).orders;
            forall o | o in s.queue + s.unsent ::
              || (o.orderId in s.resting && Strip(s.resting[o.orderId]) == Strip(o))
              || (o.orderId in rows && rows[o.orderId].status == INITIAL)
  {
    hide ApplyAll;
    var waiting, stripped := s.queue + s.unsent, StripOrders(s.queue) + StripOrders(s.unsent);
    assert stripped == StripOrders(waiting);
    forall o | o in waiting
      ensures (o.orderId in s.resting && Strip(s.resting[o.orderId]) == Strip(o)) ||
              (o.orderId in ApplyAll(s.tables, s.results).orders &&
               ApplyAll(s.tables, s.results).orders[o.orderId].status == INITIAL)
    {
      var i :| 0 <= i < |waiting| && waiting[i] == o;
      assert stripped[i] == Strip(o) && stripped[i] in stripped;
    }
  }

  lemma StripTraded(trades: seq<TradeRecord>, id: nat)
    ensures TradedBy(StripTables(Tables(map[], trades)).trades, id) == TradedBy(trades, id)
    ensures TradeVolume(StripTables(Tables(map[], trades)).trades) == TradeVolume(trades)
    decreases |trades|
  {
    if trades != [] {
      var n := |trades| - 1;
      var stripped := StripTables(Tables(map[], trades)).trades;
      StripTraded(trades[..n], id);
      assert stripped[..n] == StripTables(Tables(map[], trades[..n])).trades;
    }
  }

  lemma StripFills(t: Tables, buys: bool)
    ensures FillsBySide(StripTables(t), buys) == FillsBySide(t, buys)
  {
  }

  lemma StripUnsettled(t: Tables, x: nat)
    ensures Unsettled(StripTables(t), x) <==> Unsettled(t, x)
  {
    hide CanTrade;
    assert OpenBelow(StripTables(t), x) == StripBook(OpenBelow(t, x));
    if x in t.orders {
      StripBest(OpenBelow(t, x), t.orders[x].order);
    }
  }

  lemma StripFrontier(t: Tables)
    ensures Frontier(StripTables(t)) <==> Frontier(t)
  {
    hide Unsettled;
    forall x: nat ensures Unsettled(StripTables(t), x) <==> Unsettled(t, x) {
      StripUnsettled(t, x);
    }
    assert forall j | j in t.orders :: StripTables(t).orders[j].status == t.orders[j].status;
    if Frontier(StripTables(t)) {
      forall i: nat, j: nat | i < j && j in t.orders && t.orders[j].status != INITIAL
        ensures !Unsettled(t, i)
      {
        assert j in StripTables(t).orders;
        assert !Unsettled(StripTables(t), i);
      }
    }
  }

  lemma StripPriced(t: Tables)
    ensures AllPriced(StripTables(t)) <==> AllPriced(t)
  {
    var u := StripTables(t);
    forall r ensures Priced(u, StripRecord(r)) <==> Priced(t, r) {}
    if AllPriced(u) {
      forall i | 0 <= i < |t.trades| ensures Priced(t, t.trades[i]) {
        assert u.trades[i] == StripRecord(t.trades[i]) && u.trades[i] in u.trades;
      }
    }
    if AllPriced(t) {
      forall i | 0 <= i < |u.trades| ensures Priced(u, u.trades[i]) {
        assert u.trades[i] == StripRecord(t.trades[i]) && t.trades[i] in t.trades;
      }
    }
  }

  lemma StripValid(t: Tables)
    ensures ValidTables(StripTables(t)) <==> ValidTables(t)
  {
    var u := StripTables(t);
    forall id | id in t.orders ensures ValidRow(id, u.orders[id]) <==> ValidRow(id, t.orders[id]) {}
    if ValidTables(u) {
      forall id | id in t.orders ensures ValidRow(id, t.orders[id]) {
        assert id in u.orders;
      }
    }
  }

  lemma StripReconciled(t: Tables)
    ensures Reconciled(StripTables(t)) <==> Reconciled(t)
    ensures Balanced(StripTables(t)) <==> Balanced(t)
  {
    hide TradedBy, TradeVolume, FillsBySide, Total;
    var u := StripTables(t);
    assert u.trades == StripTables(Tables(map[], t.trades)).trades;
    StripTraded(t.trades, 0);
    forall id: nat
      ensures TradedBy(u.trades, id) == TradedBy(t.trades, id)
      ensures id in u.orders <==> id in t.orders
      ensures id in u.orders ==> u.orders[id].order.filled == t.orders[id].order.filled
    {
      StripTraded(t.trades, id);
    }
    forall buys: bool ensures FillsBySide(u, buys) == FillsBySide(t, buys) {
      StripFills(t, buys);
    }
  }

  /// What the tables show does not depend on rates and fees.
  lemma StripConsistent(t: Tables)
    ensures Consistent(StripTables(t)) <==> Consistent(t)
  {
    hide ValidTables, Frontier, Reconciled, Balanced, AllPriced, StripTables;
    StripValid(t);
    StripFrontier(t);
    StripReconciled(t);
    StripPriced(t);
  }

  /** After every step of every run from consistent tables, crashes included and whatever the
      rates: fills agree with the trade list, both sides have filled the traded volume, every
      trade is correctly priced, and at most the last processed order is unfinished. */
  lemma RunConsistentAllRates(t: Tables, steps: seq<Step>)
    requires Consistent(t)
    ensures Consistent(Exec(Start(t), steps).tables)
  {
    hide Exec, Consistent, StripTables;
    StripConsistent(t);
    StripExec(Start(t), steps);
    StripStartState(t);
    StripGood(steps);
    RunConsistent(StripTables(t), StripSteps(steps));
    StripConsistent(Exec(Start(t), steps).tables);
  }

  lemma StripStartState(t: Tables)
    ensures StripState(Start(t)) == Start(StripTables(t))
  {
    StripStart(t);
  }

  /** Price-time priority over whole runs, whatever the rates: from any reachable state on, of
      two resting orders on one side the one behind is filled no further unless the one ahead
      is complete. */
  lemma PriorityAllRates(t: Tables, prefix: seq<Step>, steps: seq<Step>, a: nat, b: nat)
    requires Consistent(t)
    requires var now := Exec(Start(t), prefix).tables;
             && RestsIn(now, a) && RestsIn(now, b) && a != b
             && var o, p := now.orders[a].order, now.orders[b].order;
                && o.Buys() == p.Buys()
                && (|| (if o.side == BUY then o.price > p.price else o.price < p.price)
                    || (o.price == p.price && o.orderId < p.orderId))
    ensures var now := Exec(Start(t), prefix).tables.orders;
            var later := Exec(Exec(Start(t), prefix), steps).tables.orders;
            && a in later && b in later
            && (later[b].order.filled == now[b].order.filled || !later[a].order.Open())
  {
    hide Exec, Coherent, Consistent, Unsettled;
    var s := Exec(Start(t), prefix);
    PipelineInvariantAllRates(t, prefix) by { ConsistentIsValid(t); }
    RunConsistentAllRates(t, prefix);
    StripConsistent(s.tables);
    StripExec(s, steps);
    StripGood(steps);
    StripUnsettled(s.tables, a);
    StripUnsettled(s.tables, b);
    PriorityOverRuns(StripState(s), StripSteps(steps), a, b);
  }

  lemma ConsistentIsValid(t: Tables)
    requires Consistent(t)
    ensures ValidTables(t)
  {
  }

  /** From every reachable state, whatever the rates, recovery completes. */
  lemma CompletesAllRates(t: Tables, prefix: seq<Step>) returns (steps: seq<Step>)
    requires ValidTables(t)
    ensures forall i | 0 <= i < |steps| :: Forward(steps[i])
    ensures Quiescent(Exec(Exec(Start(t), prefix), steps))
  {
    hide Exec, Coherent;
    var s := Exec(Start(t), prefix);
    PipelineInvariantAllRates(t, prefix);
    steps := Completes(StripState(s));
    StripExec(s, steps);
    assert StripSteps(steps) == steps;
    assert Quiescent(StripState(Exec(s, steps)));
  }

  lemma StripNearer(u: State, s: State)
    ensures Nearer(StripState(u), StripState(s)) <==> Nearer(u, s)
  {
  }

  /** In every reachable state, whatever the rates and the schedule, a step of any process that
      changes anything brings the system nearer to quiescence. */
  lemma EveryStepNearerAllRates(t: Tables, prefix: seq<Step>, step: Step)
    requires ValidTables(t) && Forward(step)
    ensures var s := Exec(Start(t), prefix);
            Do(s, step) == s || Nearer(Do(s, step), s)
  {
    hide Exec, Coherent, Do;
    PipelineInvariantAllRates(t, prefix);
    CoherentTaker(StripState(Exec(Start(t), prefix)));
    EveryStepNearer(Exec(Start(t), prefix), step);
  }

  /** And it gets stuck nowhere short of quiescence. */
  lemma QuiescentExactlyAllRates(t: Tables, prefix: seq<Step>)
    requires ValidTables(t)
    ensures var s := Exec(Start(t), prefix);
            Quiescent(s) <==> forall step | Forward(step) :: Do(s, step) == s
  {
    hide Exec, Coherent, Do, Nearer;
    var s := Exec(Start(t), prefix);
    PipelineInvariantAllRates(t, prefix);
    if !Quiescent(s) {
      var step := Advance(StripState(s));
      AdvanceNearer(StripState(s));
      StripDo(s, step);
      StripNearer(Do(s, step), s);
      NearerStrict(s);
      assert Forward(step);
    } else {
      QuiescentStays(s);
    }
  }

  /** In every reachable state the queue and the taker are what the engine's receive loop asks
      for: an order whose id is known already has the same price and side. */
  lemma QueueListedAllRates(t: Tables, steps: seq<Step>)
    requires ValidTables(t)
    ensures var s := Exec(Start(t), steps);
            && ValidBook(s.resting) && Listed(s.resting, s.queue)
            && (s.taker.Some? ==> s.taker.value.WellFormed() && Compatible(s.resting, s.taker.value))
  {
    hide Exec, Coherent;
    var s := Exec(Start(t), steps);
    PipelineInvariantAllRates(t, steps);
    QueueListed(StripState(s));
    StripListed(s.resting, s.queue);
  }

  lemma StripListed(b: Book, os: seq<Order>)
    requires ValidBook(StripBook(b)) && Listed(StripBook(b), StripOrders(os))
    ensures ValidBook(b) && Listed(b, os)
  {
    StripBest(b, Order(0, 0, BUY, 0, 1, 0, 0));
    assert forall i | 0 <= i < |os| :: StripOrders(os)[i] == Strip(os[i]);
  }

  /** At quiescence, whatever the rates, the rows the reload query selects are the resting orders
      with their exact fills, MATCHING without a fill and PARTIALLY_FILLED with one, and all other
      rows are completely filled and FULLY_FILLED. */
  lemma QuiescentAgreementAllRates(t: Tables, steps: seq<Step>)
    requires ValidTables(t) && Quiescent(Exec(Start(t), steps))
    ensures var s := Exec(Start(t), steps);
            && StripBook(OpenRows(s.tables)) == StripBook(s.resting)
            && forall id | id in s.tables.orders ::
                 var row := s.tables.orders[id];
                 if id in s.resting then
                   && row.order == s.resting[id].(feeRate := row.order.feeRate)
                   && row.status == if row.order.filled > 0 then PARTIALLY_FILLED else MATCHING
                 else row.status == FULLY_FILLED && row.order.filled == row.order.quantity
  {
    hide Exec, Coherent;
    var s := Exec(Start(t), steps);
    PipelineInvariantAllRates(t, steps);
    StripQuiescent(s);
    var u := StripState(s);
    QuiescentAgreement(u);
    assert StripBook(OpenRows(s.tables)) == OpenRows(u.tables);
    forall id | id in s.tables.orders
      ensures var row := s.tables.orders[id];
              if id in s.resting then
                && row.order == s.resting[id].(feeRate := row.order.feeRate)
                && row.status == if row.order.filled > 0 then PARTIALLY_FILLED else MATCHING
              else row.status == FULLY_FILLED && row.order.filled == row.order.quantity
    {
      assert id in u.tables.orders;
      if id in s.resting {
        assert id in OpenRows(u.tables) && OpenRows(u.tables)[id] == Strip(s.resting[id]);
        SameButRate(s.tables.orders[id].order, s.resting[id]);
      }
    }
  }
}
