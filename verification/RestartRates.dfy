/** The generator coming up next to a live engine, for arbitrary fee rates: a row keeps its rate
    to four decimals, so resending may change the rate of a resting order and nothing else. */
module RestartRates {
  import opened Fees
  import opened Orders
  import opened Matching
  import opened BookInvariants
  import opened Tables
  import opened Canonical
  import opened Protocol
  import opened Pipeline
  import opened Rebuild
  import opened Restart
  import opened Rates

  // ---- processing commutes with forgetting rates ----

  lemma {:induction false} StripMatch(b: Book, t: Order)
    requires ValidBook(b) && t.WellFormed()
    ensures ValidBook(StripBook(b))
    ensures var r := Match(b, t);
            Match(StripBook(b), Strip(t)) ==
            MatchResult(Strip(r.taker), StripBook(r.book), StripMessages(r.messages))
    decreases t.Remaining()
  {
    hide CanTrade, NextTrade, Settle, StripBook, ValidBook, Match;
    StripBest(b, t);
    if CanTrade(b, t) {
      StripTrade(b, t);
      MatchUnfold(b, t);
      MatchUnfold(StripBook(b), Strip(t));
      var x := NextTrade(b, t);
      StripMatch(Settle(b, x.maker), x.taker);
      var rest := Match(Settle(b, x.maker), x.taker).messages;
      assert StripMessages([x.Report()] + rest) == [StripMessage(x.Report())] + StripMessages(rest);
    } else {
      MatchStops(b, t);
      MatchStops(StripBook(b), Strip(t));
    }
  }

  lemma StripProcess(b: Book, o: Order)
    requires ValidBook(b) && o.WellFormed()
    ensures ValidBook(StripBook(b))
    ensures var r := Process(b, o);
            Process(StripBook(b), Strip(o)) == Outcome(StripBook(r.book), StripMessages(r.messages))
  {
    hide Match, ValidBook;
    StripMatch(b, o);
    var m := Match(b, o);
    assert StripBook(Rest(m.book, m.taker)) == Rest(StripBook(m.book), Strip(m.taker));
    assert StripMessages(RestMessages(m.taker)) == RestMessages(Strip(m.taker));
    assert StripMessages(m.messages + RestMessages(m.taker)) ==
           StripMessages(m.messages) + StripMessages(RestMessages(m.taker));
  }

  lemma {:induction false} StripProcessAll(b: Book, os: seq<Order>)
    requires ValidBook(b) && forall i | 0 <= i < |os| :: os[i].WellFormed()
    ensures ValidBook(StripBook(b)) && forall i | 0 <= i < |os| :: StripOrders(os)[i].WellFormed()
    ensures var r := ProcessAll(b, os);
            ProcessAll(StripBook(b), StripOrders(os)) ==
            Outcome(StripBook(r.book), StripMessages(r.messages))
    decreases |os|
  {
    hide Process, StripBook, ValidBook;
    forall i | 0 <= i < |os| ensures StripOrders(os)[i].WellFormed() {
      assert os[i].WellFormed();
    }
    StripValidBook(b);
    if os != [] {
      var first := Process(b, os[0]);
      StripProcess(b, os[0]);
      StripProcessAll(first.book, os[1..]);
      assert StripOrders(os)[1..] == StripOrders(os[1..]);
      var later := ProcessAll(first.book, os[1..]).messages;
      assert StripMessages(first.messages + later) == StripMessages(first.messages) + StripMessages(later);
    }
  }

  lemma StripValidBook(b: Book)
    ensures ValidBook(StripBook(b)) <==> ValidBook(b)
  {
    StripBest(b, Order(0, 0, BUY, 0, 1, 0, 0));
  }

  lemma StripResent(b: Book, t: Tables, ids: seq<nat>)
    requires ValidBook(b) && ValidTables(t) && Selection(t, ids)
    ensures ValidBook(StripBook(b)) && ValidTables(StripTables(t)) && Selection(StripTables(t), ids)
    ensures var r := Resent(b, t, ids);
            Resent(StripBook(b), StripTables(t), ids) == Outcome(StripBook(r.book), StripMessages(r.messages))
  {
    hide ProcessAll, RowsOf, Selection, StripTables, StripBook, ValidTables;
    StripValid(t);
    StripSelection(t, ids);
    RowsWellFormed(t, ids);
    StripProcessAll(b, RowsOf(t, ids));
  }

  lemma StripNoTrades(ms: seq<Message>)
    ensures NoTrades(StripMessages(ms)) <==> NoTrades(ms)
    ensures (forall m | m in StripMessages(ms) :: !m.Trade?) <==> forall m | m in ms :: !m.Trade?
  {
    var stripped := StripMessages(ms);
    forall i | 0 <= i < |ms| ensures stripped[i].Trade? <==> ms[i].Trade? {}
    forall i | 0 <= i < |ms| ensures stripped[i] in stripped && ms[i] in ms {}
  }

  /** Reachable states are valid, whatever the rates. */
  lemma ReachableValid(t: Tables, steps: seq<Step>)
    requires ValidTables(t)
    ensures var s := Exec(Start(t), steps);
            ValidBook(s.resting) && ValidTables(s.tables) && Coherent(StripState(s))
  {
    hide Exec, Coherent;
    var s := Exec(Start(t), steps);
    PipelineInvariantAllRates(t, steps);
    CoherentValid(StripState(s));
    StripValid(s.tables);
    StripValidBook(s.resting);
  }

  lemma CoherentValid(s: State)
    requires Coherent(s)
    ensures ValidTables(s.tables) && ValidBook(s.resting)
  {
    if !s.phase.Down? {
      var t, waiting := ApplyAll(s.tables, s.results), s.queue + s.unsent;
      assert RestingOk(t, s.resting);
    }
  }

  /** Exactly when a generator may come up next to an idle engine, whatever the rates and the order
      in which the query returns the rows: resending trades nothing and leaves the books as they
      are, but for rates, if and only if no trade is still on its way to the tables. */
  lemma ResendExactlyAllRates(t: Tables, steps: seq<Step>, ids: seq<nat>)
    requires ValidTables(t)
    requires var s := Exec(Start(t), steps); Idle(s) && Selection(s.tables, ids)
    ensures var s := Exec(Start(t), steps);
            && ValidBook(s.resting) && ValidTables(s.tables)
            && var r := Resent(s.resting, s.tables, ids);
               StripBook(r.book) == StripBook(s.resting) && NoTrades(r.messages) <==>
               forall m | m in s.results :: !m.Trade?
  {
    hide Exec, Coherent, Resent, Selection, StripBook, StripTables, ValidTables, ValidBook, NoTrades;
    var s := Exec(Start(t), steps);
    ReachableValid(t, steps);
    StripIdle(s);
    StripResent(s.resting, s.tables, ids);
    ResendExactly(StripState(s), ids);
    StripNoTrades(Resent(s.resting, s.tables, ids).messages);
    StripNoTrades(s.results);
  }

  /** The same while the system is busy: the rows are read in any reachable state, and the resent
      orders reach the engine when what was queued before them has been worked off, in whatever
      schedule. They do no harm if and only if neither what was pending when the rows were read
      nor what the engine has sent since holds a trade. */
  lemma ResendBusyAllRates(t: Tables, prefix: seq<Step>, steps: seq<Step>, ids: seq<nat>)
    requires ValidTables(t) && forall i | 0 <= i < |steps| :: Draining(steps[i])
    requires var s := Exec(Start(t), prefix); Selection(s.tables, ids) && Idle(Exec(s, steps))
    ensures var s := Exec(Start(t), prefix);
            var e := Exec(s, steps);
            && ValidBook(e.resting) && ValidTables(s.tables)
            && var r := Resent(e.resting, s.tables, ids);
               StripBook(r.book) == StripBook(e.resting) && NoTrades(r.messages) <==>
               forall m | m in s.results + Sent(s, steps) :: !m.Trade?
  {
    hide Exec, Coherent, Resent, Selection, StripBook, StripTables, ValidTables, ValidBook, NoTrades;
    var s := Exec(Start(t), prefix);
    var rest := PutOff(s, s, steps);
    ExecConcat(Start(t), prefix, rest);
    ResendExactlyAllRates(t, prefix + rest, ids);
  }

  /** Exactly when a generator may come up while no order is queued or being matched, next to a
      live engine or after a crash of the engine alone: the rows read keep the pipeline invariant,
      but for rates and fees, if and only if no trade is still on its way to the tables and the
      rows come in turn. */
  lemma LoadExactlyAllRates(t: Tables, steps: seq<Step>, ids: seq<nat>)
    requires ValidTables(t)
    requires var s := Exec(Start(t), steps);
             s.queue == [] && s.taker.None? && Selection(s.tables, ids)
    ensures var s := Exec(Start(t), steps);
            Coherent(StripState(s.(phase := Loaded, unsent := RowsOf(s.tables, ids)))) <==>
            (forall m | m in s.results :: !m.Trade?) && InTurn(ApplyAll(s.tables, s.results), ids)
  {
    hide Exec, Coherent, Selection, InTurn, StripBook, StripTables, ValidTables, ValidBook;
    var s := Exec(Start(t), steps);
    ReachableValid(t, steps);
    StripLoading(s, ids);
    StripMayLoad(s, ids);
    LoadExactly(StripState(s), ids);
  }

  lemma StripLoading(s: State, ids: seq<nat>)
    requires Selection(s.tables, ids)
    ensures Selection(StripTables(s.tables), ids)
    ensures StripState(Loading(s, ids)) == Loading(StripState(s), ids)
  {
    hide Selection, RowsOf, StripTables, StripBook;
    StripSelection(s.tables, ids);
  }

  lemma StripIdle(s: State)
    requires Idle(s)
    ensures Idle(StripState(s))
  {
  }

  // ---- the tables ----

  lemma StripRepeats(t: Tables, m: Message)
    ensures Repeats(StripTables(t), StripMessage(m)) ==> Repeats(t, m)
  {
    if m.UnmatchedOrder? && Repeats(StripTables(t), StripMessage(m)) {
      var id := m.order.orderId;
      var u := StripTables(t);
      assert id in u.orders && Apply(u, StripMessage(m)).orders[id] == u.orders[id];
      assert Apply(t, m).orders == t.orders;
    }
  }

  /** With no trade pending, what a restarted generator makes the engine report changes nothing
      in what the tables come to, whatever the rates. */
  lemma ResendKeepsTables(t: Tables, steps: seq<Step>, ids: seq<nat>)
    requires ValidTables(t)
    requires var s := Exec(Start(t), steps); Idle(s) && Drained(s) && Selection(s.tables, ids)
    ensures var s := Exec(Start(t), steps);
            && ValidBook(s.resting) && ValidTables(s.tables)
            && var r := Resent(s.resting, s.tables, ids);
               ApplyAll(s.tables, s.results + r.messages) == ApplyAll(s.tables, s.results)
  {
    hide Exec, Coherent, Resent, Selection, StripBook, StripTables, ValidTables, ValidBook, ApplyAll, Repeats;
    var s := Exec(Start(t), steps);
    var u := StripState(s);
    ReachableValid(t, steps);
    StripIdle(s);
    StripNoTrades(s.results);
    StripResent(s.resting, s.tables, ids);
    ResendWhenDrained(u, ids);
    StripApplyAll(s.tables, s.results);
    var now, ms := ApplyAll(s.tables, s.results), Resent(s.resting, s.tables, ids).messages;
    forall m | m in ms ensures Repeats(now, m) {
      var i :| 0 <= i < |ms| && ms[i] == m;
      assert StripMessages(ms)[i] == StripMessage(m) && StripMessages(ms)[i] in StripMessages(ms);
      StripRepeats(now, m);
    }
    RepeatsChangeNothing(now, ms);
    ApplyAllConcat(s.tables, s.results, ms);
  }

  // ---- rates ----

  /// The row of o holds o's rate as the column keeps it.
  predicate RateKept(t: Tables, o: Order) {
    o.orderId in t.orders && t.orders[o.orderId].order.feeRate == StoredRate(o.feeRate)
  }

  /// Rows sit under their ids, with rates of four decimals.
  ghost predicate RatesInColumn(t: Tables) {
    forall id | id in t.orders ::
      t.orders[id].order.orderId == id && Representable(t.orders[id].order.feeRate)
  }

  ghost predicate RatesKept(s: State) {
    && RatesInColumn(s.tables)
    && (s.phase.Generating? ==> forall id | id in s.tables.orders :: id <= s.phase.counter)
    && (forall id | id in s.resting :: s.resting[id].orderId == id && RateKept(s.tables, s.resting[id]))
    && (s.taker.Some? ==> RateKept(s.tables, s.taker.value))
    && (forall o | o in s.queue :: RateKept(s.tables, o))
    && (forall o | o in s.unsent :: RateKept(s.tables, o))
  }

  lemma ApplyKeepsRates(t: Tables, m: Message)
    ensures Apply(t, m).orders.Keys == t.orders.Keys
    ensures forall id | id in t.orders ::
              Apply(t, m).orders[id].order == t.orders[id].order.(filled := Apply(t, m).orders[id].order.filled)
  {
  }

  lemma PersistKeepsRates(s: State)
    requires RatesKept(s) && s.results != []
    ensures RatesKept(Do(s, Persist))
  {
    hide Apply, Representable, StoredRate;
    ApplyKeepsRates(s.tables, s.results[0]);
  }

  lemma LoadingKeepsRates(s: State, ids: seq<nat>)
    requires RatesKept(s) && Selection(s.tables, ids)
    ensures RatesKept(Loading(s, ids))
  {
    hide StoredRate;
    forall o | o in RowsOf(s.tables, ids) ensures RateKept(s.tables, o) {
      var i :| 0 <= i < |ids| && RowsOf(s.tables, ids)[i] == o;
      assert ids[i] in ids && ids[i] in OpenRows(s.tables);
      StoredRateExact(o.feeRate);
    }
  }

  lemma SubmitKeepsRates(s: State, r: Request)
    requires RatesKept(s) && s.phase.Generating? && s.unsent == []
    ensures RatesKept(Do(s, Submit(r)))
  {
    hide StoredRate;
    var o := NewOrder(s.phase.counter + 1, r);
    assert o.orderId !in s.tables.orders;
    StoredRateRepresentable(r.feeRate);
    var t := Do(s, Submit(r)).tables;
    assert t.orders == s.tables.orders[o.orderId := Row(o.(feeRate := StoredRate(o.feeRate)), INITIAL)];
  }

  lemma StoredRateRepresentable(feeRate: int)
    ensures Representable(StoredRate(feeRate))
  {
  }

  lemma TradeKeepsRates(s: State)
    requires RatesKept(s) && TradeEnabled(s)
    ensures RatesKept(Do(s, TradeOnce))
  {
    hide StoredRate, Representable, NextTrade, CanTrade, Execute;
    var o := s.taker.value;
    TradeTouches(s.resting, o);
    var x := NextTrade(s.resting, o);
    var k := x.maker.orderId;
    MakerKept(o, s.resting[k]);
    assert RateKept(s.tables, s.resting[k]);
  }

  lemma MakerKept(o: Order, m: Order)
    requires o.Open() && m.Open()
    ensures var x := Execute(o, m);
            && x.taker.orderId == o.orderId && x.taker.feeRate == o.feeRate
            && x.maker.orderId == m.orderId && x.maker.feeRate == m.feeRate
  {
  }

  lemma StepKeepsRates(s: State, step: Step)
    requires RatesKept(s)
    ensures RatesKept(Do(s, step))
  {
    hide StoredRate, Representable, Loading, InTurn, Selection, MaxOrderId;
    match step
    case Load(ids) => if MayLoad(s, ids) { LoadingKeepsRates(s, ids); }
    case Send =>
    case ReadMax => assert forall id | id in s.tables.orders :: id <= MaxOrderId(s.tables);
    case Submit(r) => if s.phase.Generating? && s.unsent == [] { SubmitKeepsRates(s, r); }
    case Take =>
    case TradeOnce => if TradeEnabled(s) { TradeKeepsRates(s); }
    case Finish =>
    case Persist => if s.results != [] { PersistKeepsRates(s); }
    case Crash =>
    case EngineCrash(_) =>
    case Restart(ids) => if MayLoad(s, ids) { LoadingKeepsRates(s, ids); }
  }

  lemma {:induction false} ExecKeepsRates(s: State, steps: seq<Step>)
    requires RatesKept(s)
    ensures RatesKept(Exec(s, steps))
    decreases |steps|
  {
    hide RatesKept, Do;
    if steps != [] {
      StepKeepsRates(s, steps[0]);
      ExecKeepsRates(Do(s, steps[0]), steps[1..]);
    }
  }

  /** Exactly when resending leaves even the rates alone: no trade is on its way to the tables,
      and every resting order has a rate of at most four decimals. */
  lemma ResendExactlyWithRates(t: Tables, steps: seq<Step>, ids: seq<nat>)
    requires ValidTables(t) && RatesInColumn(t)
    requires var s := Exec(Start(t), steps); Idle(s) && Selection(s.tables, ids)
    ensures var s := Exec(Start(t), steps);
            && ValidBook(s.resting) && ValidTables(s.tables)
            && var r := Resent(s.resting, s.tables, ids);
               r.book == s.resting && NoTrades(r.messages) <==>
               && (forall m | m in s.results :: !m.Trade?)
               && (forall id | id in s.resting :: s.resting[id].feeRate % 100 == 0)
  {
    hide Exec, Resent, Selection, StripTables, ValidTables, ValidBook, NoTrades, StoredRate;
    var s := Exec(Start(t), steps);
    ResendExactlyAllRates(t, steps, ids);
    StartKeepsRates(t);
    ExecKeepsRates(Start(t), steps);
    if Drained(s) {
      ReachableValid(t, steps);
      StripIdle(s);
      StripNoTrades(s.results);
      DrainedOpenRows(StripState(s));
      assert forall id | id in s.resting :: id in OpenRows(s.tables) by { StripOpen(s); }
      ResentRates(s, ids);
    }
  }

  lemma StripOpen(s: State)
    requires OpenRows(StripTables(s.tables)) == StripBook(s.resting)
    ensures forall id | id in s.resting :: id in OpenRows(s.tables)
  {
    forall id | id in s.resting ensures id in OpenRows(s.tables) {
      assert id in StripBook(s.resting);
      assert id in OpenRows(StripTables(s.tables));
    }
  }

  lemma StartKeepsRates(t: Tables)
    requires RatesInColumn(t)
    ensures RatesKept(Start(t))
  {
  }

  lemma RestingResent(s: State, ids: seq<nat>, id: nat)
    requires RatesKept(s) && ValidBook(s.resting) && ValidTables(s.tables) && Selection(s.tables, ids)
    requires var r := Resent(s.resting, s.tables, ids);
             NoTrades(r.messages) && StripBook(r.book) == StripBook(s.resting)
    requires id in s.resting && id in OpenRows(s.tables)
    ensures var b := Resent(s.resting, s.tables, ids).book;
            id in b && (b[id] == s.resting[id] <==> Representable(s.resting[id].feeRate))
  {
    hide StoredRate, Resent, Selection, NoTrades, Representable, ValidTables;
    var b, m := Resent(s.resting, s.tables, ids).book, s.resting[id];
    QuietRow(s.resting, s.tables, ids, id);
    assert StripBook(b)[id] == Strip(b[id]) && StripBook(s.resting)[id] == Strip(m);
    assert RateKept(s.tables, m);
    StoredRateExact(m.feeRate);
  }

  /// After a resend without a trade each resting order carries the rate of its row.
  lemma ResentRates(s: State, ids: seq<nat>)
    requires RatesKept(s) && ValidBook(s.resting) && ValidTables(s.tables) && Selection(s.tables, ids)
    requires var r := Resent(s.resting, s.tables, ids);
             NoTrades(r.messages) && StripBook(r.book) == StripBook(s.resting)
    requires forall id | id in s.resting :: id in OpenRows(s.tables)
    ensures Resent(s.resting, s.tables, ids).book == s.resting <==>
            forall id | id in s.resting :: Representable(s.resting[id].feeRate)
  {
    hide RatesKept, Representable, NoTrades, Resent, Selection, OpenRows;
    var b := Resent(s.resting, s.tables, ids).book;
    assert b.Keys == StripBook(b).Keys == StripBook(s.resting).Keys == s.resting.Keys;
    forall id | id in s.resting ensures b[id] == s.resting[id] <==> Representable(s.resting[id].feeRate) {
      RestingResent(s, ids, id);
    }
  }

  // ---- fees ----

  /// The fee in a trade row of the order id, at a rate which the column rounds to the row's.
  ghost predicate Charges(t: Tables, id: nat, fee: int, quantity: int, price: int) {
    id in t.orders && exists rate: int ::
      StoredRate(rate) == t.orders[id].order.feeRate && fee == Fee(rate, quantity, price)
  }

  ghost predicate ChargesStored(t: Tables, id: nat, fee: int, quantity: int, price: int) {
    id in t.orders && exists rate: int ::
      StoredRate(rate) == t.orders[id].order.feeRate && fee == StoredFee(Fee(rate, quantity, price))
  }

  ghost predicate PendingCharged(t: Tables, r: TradeRecord) {
    && Charges(t, r.takerId, r.takerFee, r.quantity, r.price)
    && Charges(t, r.makerId, r.makerFee, r.quantity, r.price)
  }

  ghost predicate Charged(t: Tables, r: TradeRecord) {
    && ChargesStored(t, r.takerId, r.takerFee, r.quantity, r.price)
    && ChargesStored(t, r.makerId, r.makerFee, r.quantity, r.price)
  }

  ghost predicate ChargedSoFar(s: State) {
    && RatesKept(s)
    && (forall r | r in s.tables.trades :: Charged(s.tables, r))
    && (forall m | m in s.results && m.Trade? :: PendingCharged(s.tables, m.record))
  }

  /// Rows that are there stay there, with their rates.
  ghost predicate RatesStay(t: Tables, u: Tables) {
    forall id | id in t.orders :: id in u.orders && u.orders[id].order.feeRate == t.orders[id].order.feeRate
  }

  lemma ChargedStays(t: Tables, u: Tables, r: TradeRecord)
    requires RatesStay(t, u)
    ensures Charged(t, r) ==> Charged(u, r)
    ensures PendingCharged(t, r) ==> PendingCharged(u, r)
  {
    hide StoredRate, Fee, StoredFee;
  }

  lemma PersistCharges(s: State)
    requires ChargedSoFar(s) && s.results != []
    ensures ChargedSoFar(Do(s, Persist))
  {
    hide RatesKept, Charged, PendingCharged, UpdateRow, StatusOf, TradeRow;
    var t, m := s.tables, s.results[0];
    var u := Apply(t, m);
    PersistKeepsRates(s);
    assert RatesStay(t, u) by { ApplyKeepsRates(t, m); }
    assert forall n | n in s.results[1..] :: n in s.results;
    forall r | r in u.trades ensures Charged(u, r) {
      if r in t.trades {
        ChargedStays(t, u, r);
      } else {
        assert m in s.results;
        ChargedStays(t, u, m.record);
        StoredCharges(u, m.record);
      }
    }
    forall n | n in s.results && n.Trade? ensures PendingCharged(u, n.record) {
      ChargedStays(t, u, n.record);
    }
  }

  lemma StoredCharges(t: Tables, r: TradeRecord)
    requires PendingCharged(t, r)
    ensures Charged(t, TradeRow(r))
  {
    hide StoredRate, Fee, StoredFee;
  }

  lemma TradeCharges(s: State)
    requires ChargedSoFar(s) && TradeEnabled(s)
    ensures ChargedSoFar(Do(s, TradeOnce))
  {
    hide RatesKept, Charged, PendingCharged, NextTrade, Settle, Execute;
    TradeKeepsRates(s);
    var m := NextTrade(s.resting, s.taker.value).Report();
    assert PendingCharged(s.tables, m.record) by { NewTradeCharges(s); }
    forall n | n in s.results + [m] && n.Trade? ensures PendingCharged(s.tables, n.record) {
      assert n in s.results || n == m;
    }
  }

  lemma NewTradeCharges(s: State)
    requires RatesKept(s) && TradeEnabled(s)
    ensures PendingCharged(s.tables, NextTrade(s.resting, s.taker.value).record)
  {
    hide StoredRate, Fee, NextTrade, CanTrade;
    var o := s.taker.value;
    TradeTouches(s.resting, o);
    var x := NextTrade(s.resting, o);
    var k := s.resting[x.maker.orderId];
    assert RateKept(s.tables, o) && RateKept(s.tables, k);
    assert x.record.takerFee == Fee(o.feeRate, x.record.quantity, x.record.price);
    assert x.record.makerFee == Fee(k.feeRate, x.record.quantity, x.record.price);
  }

  lemma SubmitCharges(s: State, r: Request)
    requires ChargedSoFar(s) && s.phase.Generating? && s.unsent == []
    ensures ChargedSoFar(Do(s, Submit(r)))
  {
    hide RatesKept, Charged, PendingCharged, StoredRate;
    SubmitKeepsRates(s, r) by { ChargedKeepsRates(s); }
    var u := Do(s, Submit(r)).tables;
    InsertRowExactly(s.tables, NewOrder(s.phase.counter + 1, r));
    assert RatesStay(s.tables, u);
    forall q | q in u.trades ensures Charged(u, q) {
      ChargedStays(s.tables, u, q);
    }
    forall m | m in s.results && m.Trade? ensures PendingCharged(u, m.record) {
      ChargedStays(s.tables, u, m.record);
    }
  }

  lemma ChargedKeepsRates(s: State)
    requires ChargedSoFar(s)
    ensures RatesKept(s)
  {
  }

  lemma StepCharges(s: State, step: Step)
    requires ChargedSoFar(s)
    ensures ChargedSoFar(Do(s, step))
  {
    hide RatesKept, Charged, PendingCharged, MayLoad, Loading, MaxOrderId, CanTrade, ValidBook,
         NextTrade, Settle, Apply, InsertRow;
    StepKeepsRates(s, step);
    match step
    case Submit(r) => if s.phase.Generating? && s.unsent == [] { SubmitCharges(s, r); }
    case TradeOnce => if TradeEnabled(s) { TradeCharges(s); }
    case Persist => if s.results != [] { PersistCharges(s); }
    case Finish =>
      if s.taker.Some? && !TradeEnabled(s) {
        forall m | m in s.results + RestMessages(s.taker.value) && m.Trade? ensures m in s.results {}
      }
    case _ => OtherCharges(s, step);
  }

  lemma OtherCharges(s: State, step: Step)
    requires ChargedSoFar(s) && RatesKept(Do(s, step))
    requires !step.Submit? && !step.TradeOnce? && !step.Persist? && !step.Finish?
    ensures ChargedSoFar(Do(s, step))
  {
    hide RatesKept, Charged, PendingCharged, MayLoad, MaxOrderId, CanTrade, ValidBook;
  }

  lemma {:induction false} ExecCharges(s: State, steps: seq<Step>)
    requires ChargedSoFar(s)
    ensures ChargedSoFar(Exec(s, steps))
    decreases |steps|
  {
    hide ChargedSoFar, Do;
    if steps != [] {
      StepCharges(s, steps[0]);
      ExecCharges(Do(s, steps[0]), steps[1..]);
    }
  }

  /** In every reachable state, whatever the rates, each recorded trade charges the taker's order in
      the taker's slot and the maker's in the maker's, at a rate within half a unit of the fourth
      decimal of the one in that order's row; the fee is rounded to 8 and then to 6 decimals. */
  lemma TradesCharged(t: Tables, steps: seq<Step>, r: TradeRecord)
    requires RatesInColumn(t) && forall q | q in t.trades :: Charged(t, q)
    requires r in Exec(Start(t), steps).tables.trades
    ensures var rows := Exec(Start(t), steps).tables.orders;
            && r.takerId in rows && r.makerId in rows
            && (exists rate: int ::
                  -50 <= StoredRate(rate) - rate <= 50 && StoredRate(rate) == rows[r.takerId].order.feeRate
                  && r.takerFee == StoredFee(Fee(rate, r.quantity, r.price)))
            && (exists rate: int ::
                  -50 <= StoredRate(rate) - rate <= 50 && StoredRate(rate) == rows[r.makerId].order.feeRate
                  && r.makerFee == StoredFee(Fee(rate, r.quantity, r.price)))
  {
    hide Exec, RatesKept, StoredRate, StoredFee, Fee;
    StartKeepsRates(t);
    ExecCharges(Start(t), steps);
    var now := Exec(Start(t), steps).tables;
    assert Charged(now, r);
    forall rate: int ensures -50 <= StoredRate(rate) - rate <= 50 {
      StoredRateExact(rate);
    }
  }
}
