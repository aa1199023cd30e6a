/** The three processes and their queues as one step system. A step that is not enabled
    leaves the state as it is, so every sequence of steps is a run. */
module Protocol {
  import opened Orders
  import opened Matching
  import opened Tables
  import opened Canonical

  /** The generator is down until it has loaded the open rows, and submits new orders once it
      has read the largest id. */
  datatype Phase = Down | Loaded | Generating(counter: nat)

  datatype State = State(
    tables: Tables,
    phase: Phase,
    unsent: seq<Order>,        // read from or written to the table, not yet queued
    queue: seq<Order>,         // the order queue
    resting: Book,             // the engine's two books
    taker: Option<Order>,      // the order the engine is matching
    results: seq<Message>,     // the result queue
    requests: seq<Request>     // history: what has been submitted
  )

  /// A cold start: tables from earlier runs, everything else lost.
  function Start(t: Tables): State {
    State(t, Down, [], [], map[], None, [], [])
  }

  datatype Step =
    | Load(ids: seq<nat>)        // the reload query, its rows in this order
    | Send                       // one order into the order queue
    | ReadMax                    // SELECT MAX(order_id)
    | Submit(request: Request)   // a new order: its row is inserted
    | Take                       // the engine receives an order
    | TradeOnce                  // one trade of the current taker, one message
    | Finish                     // the taker is reported or not, and rests or not
    | Persist                    // one message into the tables
    | Crash                      // both queues, the engine and the generator are lost
    | EngineCrash(kept: nat)     // the same, but the worker still gets the first kept results
    | Restart(ids: seq<nat>)     // a new generator next to a live engine: the reload query

  ghost predicate TradeEnabled(s: State) {
    s.taker.Some? && ValidBook(s.resting) && CanTrade(s.resting, s.taker.value)
  }

  /// The order queue is empty, the engine idle, and no trade is on its way to the tables.
  predicate Drained(s: State) {
    s.queue == [] && s.taker.None? && forall m | m in s.results :: !m.Trade?
  }

  /** When a generator may come up, and in which order it may read the rows. Module Restart
      shows this to be exactly when resending does no harm. */
  ghost predicate MayLoad(s: State, ids: seq<nat>) {
    Drained(s) && Selection(s.tables, ids) && InTurn(ApplyAll(s.tables, s.results), ids)
  }

  function First(ms: seq<Message>, n: nat): seq<Message> {
    if n < |ms| then ms[..n] else ms
  }

  ghost function Loading(s: State, ids: seq<nat>): State
    requires Selection(s.tables, ids)
  {
    s.(phase := Loaded, unsent := RowsOf(s.tables, ids))
  }

  ghost function Do(s: State, step: Step): State {
    match step
    case Load(ids) =>
      if s.phase.Down? && MayLoad(s, ids) then Loading(s, ids) else s
    case Send =>
      if s.unsent != [] then s.(unsent := s.unsent[1..], queue := s.queue + [s.unsent[0]]) else s
    case ReadMax =>
      if s.phase.Loaded? && s.unsent == [] then s.(phase := Generating(MaxOrderId(s.tables))) else s
    case Submit(r) =>
      if s.phase.Generating? && s.unsent == [] then
        var o := NewOrder(s.phase.counter + 1, r);
        s.(tables := InsertRow(s.tables, o), phase := Generating(s.phase.counter + 1),
           unsent := [o], requests := s.requests + [r])
      else s
    case Take =>
      if s.taker.None? && s.queue != [] then s.(taker := Some(s.queue[0]), queue := s.queue[1..]) else s
    case TradeOnce =>
      if TradeEnabled(s) then
        var x := NextTrade(s.resting, s.taker.value);
        s.(resting := Settle(s.resting, x.maker), taker := Some(x.taker),
           results := s.results + [x.Report()])
      else s
    case Finish =>
      if s.taker.Some? && !TradeEnabled(s) then
        s.(resting := Rest(s.resting, s.taker.value), taker := None,
           results := s.results + RestMessages(s.taker.value))
      else s
    case Persist =>
      if s.results != [] then s.(tables := Apply(s.tables, s.results[0]), results := s.results[1..]) else s
    case Crash =>
      Start(s.tables).(requests := s.requests)
    case EngineCrash(kept) =>
      Start(s.tables).(requests := s.requests, results := First(s.results, kept))
    case Restart(ids) =>
      if !s.phase.Down? && MayLoad(s, ids) then Loading(s, ids) else s
  }

  ghost function Exec(s: State, steps: seq<Step>): State
    decreases |steps|
  {
    if steps == [] then s else Exec(Do(s, steps[0]), steps[1..])
  }

  lemma ExecNone(s: State)
    ensures Exec(s, []) == s
  {
  }

  lemma ExecCons(s: State, step: Step, rest: seq<Step>)
    ensures Exec(s, [step] + rest) == Exec(Do(s, step), rest)
  {
    assert ([step] + rest)[1..] == rest;
  }

  lemma {:induction false} ExecConcat(s: State, a: seq<Step>, b: seq<Step>)
    ensures Exec(s, a + b) == Exec(Exec(s, a), b)
    decreases |a|
  {
    if a == [] {
      assert a + b == b;
    } else {
      assert (a + b)[1..] == a[1..] + b;
      ExecConcat(Do(s, a[0]), a[1..], b);
    }
  }

  /// Both queues are empty and the engine is idle.
  predicate Quiescent(s: State) {
    s.phase.Generating? && s.unsent == [] && s.queue == [] && s.taker.None? && s.results == []
  }

  // ---- the engine's steps are the engine ----

  function Times(step: Step, n: nat): seq<Step> {
    if n == 0 then [] else [step] + Times(step, n - 1)
  }

  lemma {:induction false} TradesAreMatch(s: State, t: Order)
    requires s.taker == Some(t) && ValidBook(s.resting) && t.WellFormed()
    ensures var r := Match(s.resting, t);
            Exec(s, Times(TradeOnce, |r.messages|)) ==
            s.(resting := r.book, taker := Some(r.taker), results := s.results + r.messages)
    decreases t.Remaining()
  {
    hide Match, NextTrade, CanTrade, Settle, ValidBook;
    var n := |Match(s.resting, t).messages|;
    if CanTrade(s.resting, t) {
      MatchUnfold(s.resting, t);
      var u := Do(s, TradeOnce);
      TradesAreMatch(u, u.taker.value);
      ExecCons(s, TradeOnce, Times(TradeOnce, n - 1));
      var m, rest := NextTrade(s.resting, t).Report(), Match(u.resting, u.taker.value).messages;
      assert s.results + [m] + rest == s.results + ([m] + rest);
    } else {
      MatchStops(s.resting, t);
      assert s.results + [] == s.results;
    }
  }

  /** Taking an order, trading as often as it can and finishing is exactly what the engine's
      ProcessOrder computes: a crash between two of these steps is a crash between two
      messages of one order. */
  lemma StepsAreProcess(s: State)
    requires s.taker.None? && s.queue != [] && ValidBook(s.resting) && s.queue[0].WellFormed()
    ensures var r := Process(s.resting, s.queue[0]);
            var n := |Match(s.resting, s.queue[0]).messages|;
            Exec(s, [Take] + Times(TradeOnce, n) + [Finish]) ==
            s.(queue := s.queue[1..], resting := r.book, results := s.results + r.messages)
  {
    var o := s.queue[0];
    var m := Match(s.resting, o);
    var trades := Times(TradeOnce, |m.messages|);
    var u := Do(s, Take);
    assert ([Take] + trades + [Finish])[1..] == trades + [Finish];
    ExecConcat(u, trades, [Finish]);
    TradesAreMatch(u, o);
    var v := Exec(u, trades);
    assert Exec(v, [Finish]) == Do(v, Finish);
    assert s.results + m.messages + RestMessages(m.taker) == s.results + (m.messages + RestMessages(m.taker));
  }

  // ---- the worker's steps are the worker ----

  /** The worker's steps apply the results one by one, first come first. */
  lemma {:induction false} PersistsAreApplyAll(s: State)
    ensures Exec(s, Times(Persist, |s.results|)) ==
            s.(tables := ApplyAll(s.tables, s.results), results := [])
    decreases |s.results|
  {
    hide Apply;
    if s.results != [] {
      PersistsAreApplyAll(Do(s, Persist));
      ExecCons(s, Persist, Times(Persist, |s.results| - 1));
    }
  }

  // ---- what is reported ----

  ghost predicate ReportsUnfilled(s: State) {
    forall m | m in s.results && m.UnmatchedOrder? :: m.order.filled == 0
  }

  lemma StepReports(s: State, step: Step)
    requires ReportsUnfilled(s)
    ensures ReportsUnfilled(Do(s, step))
  {
    hide MayLoad, CanTrade, ValidBook, MaxOrderId, NextTrade, Settle, Apply;
    if step.Finish? && s.taker.Some? && !TradeEnabled(s) {
      forall m | m in s.results + RestMessages(s.taker.value) && m.UnmatchedOrder? ensures m.order.filled == 0 {
        assert m in s.results || m in RestMessages(s.taker.value);
      }
    }
  }

  /** In every state of every run only orders without a fill are reported. */
  lemma {:induction false} RunReportsUnfilled(s: State, steps: seq<Step>)
    requires ReportsUnfilled(s)
    ensures forall m | m in Exec(s, steps).results && m.UnmatchedOrder? :: m.order.filled == 0
    decreases |steps|
  {
    hide Do;
    if steps != [] {
      StepReports(s, steps[0]);
      RunReportsUnfilled(Do(s, steps[0]), steps[1..]);
    }
  }
}
