/** The generator coming up: its steps in the protocol are its program, and next to a live engine
    it is harmless under an exact condition. */
module Restart {
  import opened Orders
  import opened Matching
  import opened Tables
  import opened Generator
  import opened Canonical
  import opened Protocol
  import opened Pipeline
  import opened Rebuild
  import opened History

  // ---- the generator's steps are the generator ----

  lemma {:induction false} SendsAll(s: State)
    ensures Exec(s, Times(Send, |s.unsent|)) == s.(unsent := [], queue := s.queue + s.unsent)
    decreases |s.unsent|
  {
    var n := |s.unsent|;
    if n == 0 {
      assert s.queue + s.unsent == s.queue;
    } else {
      var u := Do(s, Send);
      SendsAll(u);
      ExecCons(s, Send, Times(Send, n - 1));
      assert s.queue + [s.unsent[0]] + s.unsent[1..] == s.queue + s.unsent;
    }
  }

  function SubmitSteps(rs: seq<Request>): seq<Step> {
    if rs == [] then [] else [Submit(rs[0])] + ([Send] + SubmitSteps(rs[1..]))
  }

  lemma SubmitAndSend(s: State, r: Request)
    requires s.phase == Generating(MaxOrderId(s.tables)) && s.unsent == []
    ensures var o := NewOrder(MaxOrderId(s.tables) + 1, r);
            var t := InsertRow(s.tables, o);
            Do(Do(s, Submit(r)), Send) ==
            s.(tables := t, phase := Generating(MaxOrderId(t)), queue := s.queue + [o],
               requests := s.requests + [r])
  {
    hide MaxOrderId, InsertRow;
    InsertedIsMax(s.tables, r);
  }

  lemma {:induction false} SubmitsAll(s: State, rs: seq<Request>)
    requires s.phase == Generating(MaxOrderId(s.tables)) && s.unsent == []
    ensures var t := InsertAll(s.tables, rs);
            Exec(s, SubmitSteps(rs)) ==
            s.(tables := t, phase := Generating(MaxOrderId(t)),
               queue := s.queue + NewOrders(MaxOrderId(s.tables), rs), requests := s.requests + rs)
    decreases |rs|
  {
    hide MaxOrderId, InsertRow, Do;
    if rs == [] {
      assert s.queue + [] == s.queue && s.requests + rs == s.requests;
    } else {
      var id := MaxOrderId(s.tables);
      var o, rest := NewOrder(id + 1, rs[0]), rs[1..];
      var u := Do(s, Submit(rs[0]));
      var v := Do(u, Send);
      InsertedIsMax(s.tables, rs[0]);
      SubmitAndSend(s, rs[0]);
      ExecCons(s, Submit(rs[0]), [Send] + SubmitSteps(rest));
      ExecCons(u, Send, SubmitSteps(rest));
      SubmitsAll(v, rest);
      assert s.queue + [o] + NewOrders(id + 1, rest) == s.queue + ([o] + NewOrders(id + 1, rest));
      assert s.requests + [rs[0]] + rest == s.requests + rs;
    }
  }

  /// The steps of a generator that comes up.
  function GeneratorSteps(first: Step, ids: seq<nat>, rs: seq<Request>): seq<Step> {
    [first] + (Times(Send, |ids|) + ([ReadMax] + SubmitSteps(rs)))
  }

  /** Load, send, read the maximum, then insert and send each new order: the steps of a whole
      start have the effect that GenerateOrders is proved to have. */
  lemma StepsAreGenerateOrders(t: Tables, ids: seq<nat>, rs: seq<Request>)
    requires Selection(t, ids) && InTurn(t, ids)
    ensures var e := Exec(Start(t), GeneratorSteps(Load(ids), ids, rs));
            && e.tables == InsertAll(t, rs)
            && e.queue == RowsOf(t, ids) + NewOrders(MaxOrderId(t), rs)
            && e.phase == Generating(MaxOrderId(e.tables))
            && e.unsent == [] && e.results == [] && e.requests == rs
  {
    hide MaxOrderId, Selection, InTurn, InsertAll, NewOrders, SubmitSteps;
    var s := Start(t).(phase := Loaded, unsent := RowsOf(t, ids));
    assert ApplyAll(t, []) == t;
    assert Do(Start(t), Load(ids)) == s;
    ExecCons(Start(t), Load(ids), Times(Send, |ids|) + ([ReadMax] + SubmitSteps(rs)));
    LoadedGenerates(s, rs);
    assert [] + rs == rs && [] + RowsOf(t, ids) == RowsOf(t, ids);
  }

  lemma LoadedGenerates(s: State, rs: seq<Request>)
    requires s.phase == Loaded
    ensures var t := InsertAll(s.tables, rs);
            Exec(s, Times(Send, |s.unsent|) + ([ReadMax] + SubmitSteps(rs))) ==
            State(t, Generating(MaxOrderId(t)), [],
                  s.queue + s.unsent + NewOrders(MaxOrderId(s.tables), rs),
                  s.resting, s.taker, s.results, s.requests + rs)
  {
    hide MaxOrderId, InsertRow, InsertAll, NewOrders, SubmitSteps;
    var sends, last := Times(Send, |s.unsent|), [ReadMax] + SubmitSteps(rs);
    ExecConcat(s, sends, last);
    SendsAll(s);
    var u := s.(unsent := [], queue := s.queue + s.unsent);
    ExecCons(u, ReadMax, SubmitSteps(rs));
    SubmitsAll(u.(phase := Generating(MaxOrderId(u.tables))), rs);
  }

  /** A second generator next to a live engine. With no order queued or being matched, no trade
      pending, and rows that come in turn: it queues the open rows as they were read and then the
      new orders, inserts their rows, and leaves the books and the pending results alone. */
  lemma RestartIsGenerateOrders(s: State, ids: seq<nat>, rs: seq<Request>)
    requires !s.phase.Down? && s.queue == [] && s.taker == None
    requires forall m | m in s.results :: !m.Trade?
    requires Selection(s.tables, ids) && InTurn(ApplyAll(s.tables, s.results), ids)
    ensures var t := InsertAll(s.tables, rs);
            Exec(s, GeneratorSteps(Restart(ids), ids, rs)) ==
            State(t, Generating(MaxOrderId(t)), [],
                  RowsOf(s.tables, ids) + NewOrders(MaxOrderId(s.tables), rs),
                  s.resting, None, s.results, s.requests + rs)
  {
    hide MaxOrderId, Selection, InTurn, InsertAll, NewOrders, SubmitSteps, ApplyAll;
    var rows := RowsOf(s.tables, ids);
    var u := s.(phase := Loaded, unsent := rows);
    assert Do(s, Restart(ids)) == u;
    ExecCons(s, Restart(ids), Times(Send, |ids|) + ([ReadMax] + SubmitSteps(rs)));
    LoadedGenerates(u, rs);
    assert [] + rows == rows;
  }

  /** After a crash, from whatever state: the engine, both queues and what was being matched are
      gone, and the new generator queues the open rows and then the new orders. */
  lemma CrashIsGenerateOrders(s: State, ids: seq<nat>, rs: seq<Request>)
    requires Selection(s.tables, ids) && InTurn(s.tables, ids)
    ensures var t := InsertAll(s.tables, rs);
            Exec(s, [Crash] + GeneratorSteps(Load(ids), ids, rs)) ==
            State(t, Generating(MaxOrderId(t)), [],
                  RowsOf(s.tables, ids) + NewOrders(MaxOrderId(s.tables), rs),
                  map[], None, [], s.requests + rs)
  {
    hide MaxOrderId, Selection, InTurn, InsertAll, NewOrders, SubmitSteps;
    assert ApplyAll(s.tables, []) == s.tables;
    AfterCrash(s, Crash, [], ids, rs);
  }

  /** After a crash of the engine alone, of whose results the worker still gets some: if none of
      those is a trade, the same, and these results stay pending. */
  lemma EngineCrashIsGenerateOrders(s: State, kept: nat, ids: seq<nat>, rs: seq<Request>)
    requires kept <= |s.results| && forall i | 0 <= i < kept :: !s.results[i].Trade?
    requires Selection(s.tables, ids) && InTurn(ApplyAll(s.tables, s.results[..kept]), ids)
    ensures var t := InsertAll(s.tables, rs);
            Exec(s, [EngineCrash(kept)] + GeneratorSteps(Load(ids), ids, rs)) ==
            State(t, Generating(MaxOrderId(t)), [],
                  RowsOf(s.tables, ids) + NewOrders(MaxOrderId(s.tables), rs),
                  map[], None, s.results[..kept], s.requests + rs)
  {
    hide MaxOrderId, Selection, InTurn, InsertAll, NewOrders, SubmitSteps, ApplyAll;
    assert kept == |s.results| ==> s.results[..kept] == s.results;
    AfterCrash(s, EngineCrash(kept), s.results[..kept], ids, rs);
  }

  lemma AfterCrash(s: State, crash: Step, kept: seq<Message>, ids: seq<nat>, rs: seq<Request>)
    requires Do(s, crash) == State(s.tables, Down, [], [], map[], None, kept, s.requests)
    requires forall m | m in kept :: !m.Trade?
    requires Selection(s.tables, ids) && InTurn(ApplyAll(s.tables, kept), ids)
    ensures var t := InsertAll(s.tables, rs);
            Exec(s, [crash] + GeneratorSteps(Load(ids), ids, rs)) ==
            State(t, Generating(MaxOrderId(t)), [],
                  RowsOf(s.tables, ids) + NewOrders(MaxOrderId(s.tables), rs),
                  map[], None, kept, s.requests + rs)
  {
    hide MaxOrderId, Selection, InTurn, InsertAll, NewOrders, SubmitSteps, ApplyAll;
    var rows, d := RowsOf(s.tables, ids), Do(s, crash);
    var u := d.(phase := Loaded, unsent := rows);
    ExecCons(s, crash, GeneratorSteps(Load(ids), ids, rs));
    assert Do(d, Load(ids)) == u;
    ExecCons(d, Load(ids), Times(Send, |ids|) + ([ReadMax] + SubmitSteps(rs)));
    LoadedGenerates(u, rs);
    assert [] + rows == rows;
  }

  // ---- next to a live engine ----

  /// Reports of orders whose rows say MATCHING already.
  ghost predicate AllRepeat(t: Tables, ms: seq<Message>) {
    forall m | m in ms :: Repeats(t, m)
  }

  lemma {:induction false} RepeatsChangeNothing(t: Tables, ms: seq<Message>)
    requires AllRepeat(t, ms)
    ensures ApplyAll(t, ms) == t
    decreases |ms|
  {
    if ms != [] {
      assert ms[0] in ms && Repeats(t, ms[0]);
      RepeatsChangeNothing(t, ms[1..]);
    }
  }

  lemma {:induction false} ResendReports(t: Tables, b: Book, os: seq<Order>)
    requires ValidBook(b) && Uncrossed(b) && ValidTables(t)
    requires forall i | 0 <= i < |os| :: os[i].orderId in b && b[os[i].orderId] == os[i]
    requires forall id | id in b :: Recorded(t, b[id]) && t.orders[id].status != INITIAL
    ensures forall i | 0 <= i < |os| :: os[i].WellFormed()
    ensures AllRepeat(t, ProcessAll(b, os).messages)
    decreases |os|
  {
    hide Process, Uncrossed, Match;
    if os != [] {
      var o := os[0];
      ResendOne(b, o);
      assert b[o.orderId := o] == b;
      assert Recorded(t, o);
      if o.filled == 0 {
        ApplyUnmatched(t, o);
        assert t.orders[o.orderId] == Row(o, MATCHING);
        assert t.orders[o.orderId := Row(o, MATCHING)] == t.orders;
        assert Repeats(t, UnmatchedOrder(o));
      }
      ResendReports(t, b, os[1..]);
      var head, tail := RestMessages(o), ProcessAll(b, os[1..]).messages;
      assert ProcessAll(b, os).messages == head + tail;
      forall m | m in head + tail ensures Repeats(t, m) {
        assert m in head || m in tail;
      }
    }
  }

  /// The engine has nothing to do and everything that was sent has been taken.
  predicate Idle(s: State) {
    !s.phase.Down? && s.unsent == [] && s.queue == [] && s.taker.None?
  }

  /// What resending the selected rows of t, in the order ids, does to an engine that holds b.
  ghost function Resent(b: Book, t: Tables, ids: seq<nat>): Outcome
    requires ValidBook(b) && ValidTables(t) && Selection(t, ids)
  {
    RowsWellFormed(t, ids);
    ProcessAll(b, RowsOf(t, ids))
  }

  lemma RowsWellFormed(t: Tables, ids: seq<nat>)
    requires ValidTables(t) && Selection(t, ids)
    ensures Distinct(RowsOf(t, ids))
    ensures forall i | 0 <= i < |RowsOf(t, ids)| ::
              RowsOf(t, ids)[i].WellFormed() && RowsOf(t, ids)[i].Open()
    ensures forall o: Order :: o in RowsOf(t, ids) <==> o.orderId in OpenRows(t) && OpenRows(t)[o.orderId] == o
  {
    RowsOfOpen(t, ids);
    var rows := RowsOf(t, ids);
    forall o: Order | o.orderId in OpenRows(t) && OpenRows(t)[o.orderId] == o ensures o in rows {
      var i :| 0 <= i < |ids| && ids[i] == o.orderId;
      assert rows[i] == o;
    }
  }

  lemma CoherentIdle(s: State)
    requires Coherent(s) && Idle(s)
    ensures ValidBook(s.resting) && ValidTables(s.tables)
    ensures Aligned(ApplyAll(s.tables, s.results), s.resting, None, [])
  {
    SyncedIdle(ApplyAll(s.tables, s.results), s.resting);
  }

  /** With no trade pending, resending every open row, in whatever order, changes neither the books
      nor what the tables come to. */
  lemma ResendWhenDrained(s: State, ids: seq<nat>)
    requires Coherent(s) && Idle(s) && Drained(s) && Selection(s.tables, ids)
    ensures ValidBook(s.resting) && ValidTables(s.tables)
    ensures var r := Resent(s.resting, s.tables, ids);
            && r.book == s.resting && NoTrades(r.messages)
            && AllRepeat(ApplyAll(s.tables, s.results), r.messages)
  {
    hide Pending, Coherent, Aligned, OpenRows, Selection, RowsOf, ApplyAll, ProcessAll, AllRepeat;
    CoherentIdle(s);
    CoherentPending(s);
    var now, os := ApplyAll(s.tables, s.results), RowsOf(s.tables, ids);
    ReportsKeepOrders(s.tables, s.results);
    RowsWellFormed(s.tables, ids);
    forall i | 0 <= i < |os| ensures Echo(s.resting, os[i]) {
      assert os[i] in os;
      OpenRowOwner(now, s.resting, [], os[i]);
    }
    ResendEchoes(now, s.resting, os);
  }

  lemma ResendEchoes(t: Tables, resting: Book, os: seq<Order>)
    requires Aligned(t, resting, None, [])
    requires forall i | 0 <= i < |os| :: Echo(resting, os[i])
    ensures ValidBook(resting) && forall i | 0 <= i < |os| :: os[i].WellFormed()
    ensures var r := ProcessAll(resting, os);
            r.book == resting && NoTrades(r.messages) && AllRepeat(t, r.messages)
  {
    hide ProcessAll, AllRepeat, NoTrades;
    assert forall i | 0 <= i < |os| :: os[i].orderId in resting && resting[os[i].orderId] == os[i];
    ResendDrained(resting, os);
    ResendReports(t, resting, os);
  }

  /// With no trade pending the selected rows are the resting orders.
  lemma DrainedOpenRows(s: State)
    requires Coherent(s) && Idle(s) && Drained(s)
    ensures OpenRows(s.tables) == s.resting
  {
    hide Pending, Coherent, OpenRows, ApplyAll;
    CoherentIdle(s);
    CoherentPending(s);
    ReportsKeepOrders(s.tables, s.results);
    AlignedOpenRows(ApplyAll(s.tables, s.results), s.resting);
  }

  lemma AlignedOpenRows(t: Tables, resting: Book)
    requires Aligned(t, resting, None, [])
    ensures OpenRows(t) == resting
  {
    OpenRowsValid(t);
    forall id | id in OpenRows(t) ensures id in resting && resting[id] == OpenRows(t)[id] {
      OpenRowOwner(t, resting, [], OpenRows(t)[id]);
    }
    forall id | id in resting ensures id in OpenRows(t) {
      OpenRowOwner(t, resting, [], resting[id]);
    }
  }

  lemma {:induction false} PendingPath(t: Tables, ms: seq<Message>) returns (n: nat)
    requires Pending(t, ms)
    ensures Path(t, n, ApplyAll(t, ms))
    decreases |ms|
  {
    hide ValidTables, HasNext, Apply, Repeats;
    if ms == [] {
      n := 0;
    } else {
      var k := PendingPath(Apply(t, ms[0]), ms[1..]);
      n := if Repeats(t, ms[0]) then k else k + 1;
      if Repeats(t, ms[0]) {
        RepeatKeeps(t, ms[0]);
      }
    }
  }

  lemma RepeatKeeps(t: Tables, m: Message)
    requires Repeats(t, m)
    ensures Apply(t, m) == t && !m.Trade?
  {
  }

  /// A pending trade leaves some selected row behind what the log will make of it.
  lemma {:induction false} TradeRaises(t: Tables, ms: seq<Message>) returns (x: nat)
    requires Pending(t, ms) && exists m :: m in ms && m.Trade?
    ensures x in t.orders && x in ApplyAll(t, ms).orders && Selected(t.orders[x])
    ensures t.orders[x].order.filled < ApplyAll(t, ms).orders[x].order.filled
    decreases |ms|
  {
    hide ValidTables, HasNext, Apply, Repeats, Commit, NextMessage;
    var u, rest := Apply(t, ms[0]), ms[1..];
    if Repeats(t, ms[0]) {
      RepeatKeeps(t, ms[0]);
      TradeInTail(ms);
      x := TradeRaises(t, rest);
    } else {
      var y, k := CommitShape(t);
      CommitIsApply(t);
      if CommitTrade(t, u, y, k) {
        x := y;
        var n := PendingPath(u, rest);
        PathFills(u, n, ApplyAll(u, rest), x);
        TradeFills(t, u, y, k);
      } else {
        TradeInTail(ms);
        x := TradeRaises(u, rest);
        ReportFills(t, u, y);
        ReportSelects(t, u, y, x);
      }
    }
  }

  lemma TradeInTail(ms: seq<Message>)
    requires ms != [] && !ms[0].Trade? && exists m :: m in ms && m.Trade?
    ensures exists m :: m in ms[1..] && m.Trade?
  {
    var m :| m in ms && m.Trade?;
    assert m in ms[1..];
  }

  lemma CommitIsApply(t: Tables)
    requires ValidTables(t) && HasNext(t)
    ensures Commit(t) == Apply(t, NextMessage(t))
  {
  }

  lemma TradeFills(t: Tables, u: Tables, x: nat, k: nat)
    requires CommitTrade(t, u, x, k)
    ensures Selected(t.orders[x]) && x in u.orders
    ensures t.orders[x].order.filled < u.orders[x].order.filled
  {
  }

  lemma ReportSelects(t: Tables, u: Tables, x: nat, y: nat)
    requires CommitReport(t, u, x) && y in u.orders && Selected(u.orders[y])
    ensures Selected(t.orders[y])
  {
  }

  /// After a resend without a trade the engine holds each selected row as it was read.
  lemma QuietRow(b: Book, t: Tables, ids: seq<nat>, x: nat)
    requires ValidBook(b) && ValidTables(t) && Selection(t, ids)
    requires NoTrades(Resent(b, t, ids).messages)
    requires x in t.orders && Selected(t.orders[x])
    ensures x in Resent(b, t, ids).book && Resent(b, t, ids).book[x] == t.orders[x].order
  {
    hide Selection, RowsOf, ProcessAll, ValidTables, NoTrades;
    RowsWellFormed(t, ids);
    RowKey(t, x);
    assert t.orders[x].order in RowsOf(t, ids);
    QuietRests(b, RowsOf(t, ids));
  }

  /** Exactly when a generator may come up next to an idle engine: resending every open row, in
      whatever order the query returns them, trades nothing and leaves the books as they are if
      and only if no trade is still on its way to the tables. */
  lemma ResendExactly(s: State, ids: seq<nat>)
    requires Coherent(s) && Idle(s) && Selection(s.tables, ids)
    ensures ValidBook(s.resting) && ValidTables(s.tables)
    ensures var r := Resent(s.resting, s.tables, ids);
            r.book == s.resting && NoTrades(r.messages) <==> forall m | m in s.results :: !m.Trade?
  {
    hide Pending, Coherent, Aligned, Selection, RowsOf, Resent, Reload, NoTrades;
    CoherentIdle(s);
    CoherentPending(s);
    var r := Resent(s.resting, s.tables, ids);
    if Drained(s) {
      ResendWhenDrained(s, ids);
    } else if NoTrades(r.messages) {
      var x := TradeRaises(s.tables, s.results);
      QuietRow(s.resting, s.tables, ids, x);
      if r.book == s.resting {
        RestingRecorded(ApplyAll(s.tables, s.results), s.resting, x);
      }
    }
  }

  lemma RowKey(t: Tables, id: nat)
    requires ValidTables(t) && id in t.orders
    ensures t.orders[id].order.orderId == id
  {
    assert ValidRow(id, t.orders[id]);
  }

  lemma RestingRecorded(t: Tables, resting: Book, id: nat)
    requires Aligned(t, resting, None, []) && id in resting
    ensures id in t.orders && t.orders[id].order == resting[id]
  {
    assert Recorded(t, resting[id]);
  }

  /** Exactly when a generator may come up while no order is queued or being matched: next to a
      live engine, or after a crash that lost everything, or after one of the engine alone. The
      rows read keep the pipeline invariant if and only if no trade is still on its way to the
      tables and the rows come in turn. */
  lemma LoadExactly(s: State, ids: seq<nat>)
    requires Coherent(s) && s.queue == [] && s.taker.None? && Selection(s.tables, ids)
    ensures Coherent(s.(phase := Loaded, unsent := RowsOf(s.tables, ids))) <==>
            (forall m | m in s.results :: !m.Trade?) && InTurn(ApplyAll(s.tables, s.results), ids)
  {
    hide Pending, Coherent, Synced, Selection, RowsOf, InTurn, ApplyAll;
    var now, rows := ApplyAll(s.tables, s.results), RowsOf(s.tables, ids);
    CoherentPending(s);
    if MayLoad(s, ids) {
      LoadingCoherent(s, ids);
    } else if Coherent(Loading(s, ids)) {
      LoadingSynced(s, ids);
      SyncedRecorded(now, s.resting, None, rows);
      if Drained(s) {
        ReportsKeepOrders(s.tables, s.results);
        PendingEnd(s.tables, s.results);
        SameRows(s.tables, now, ids);
        SyncedInTurn(now, s.resting, ids);
      } else {
        var x := TradeRaises(s.tables, s.results);
        RowIsRead(s.tables, now, ids, x);
        assert false;
      }
    }
  }

  lemma RowIsRead(t: Tables, now: Tables, ids: seq<nat>, x: nat)
    requires ValidTables(t) && Selection(t, ids) && x in t.orders && Selected(t.orders[x])
    requires forall o | o in RowsOf(t, ids) :: Recorded(now, o)
    ensures x in now.orders && now.orders[x].order == t.orders[x].order
  {
    hide Selection, RowsOf, ValidTables;
    RowsWellFormed(t, ids);
    RowKey(t, x);
    assert t.orders[x].order in RowsOf(t, ids);
  }

  lemma LoadingSynced(s: State, ids: seq<nat>)
    requires Selection(s.tables, ids) && s.queue == [] && Coherent(Loading(s, ids))
    ensures Synced(ApplyAll(s.tables, s.results), s.resting, s.taker, RowsOf(s.tables, ids))
  {
    hide Synced, Selection, RowsOf, ApplyAll;
    assert [] + RowsOf(s.tables, ids) == RowsOf(s.tables, ids);
  }

  // ---- rows that are read while the engine is busy ----

  /// The engine works off what is queued, and the worker what is pending.
  predicate Draining(step: Step) {
    step.Send? || step.Take? || step.TradeOnce? || step.Finish? || step.Persist?
  }

  /// What the engine sends in one step, and in a run of such steps.
  ghost function Emits(s: State, step: Step): seq<Message> {
    if step.TradeOnce? && TradeEnabled(s) then [NextTrade(s.resting, s.taker.value).Report()]
    else if step.Finish? && s.taker.Some? && !TradeEnabled(s) then RestMessages(s.taker.value)
    else []
  }

  ghost function Sent(s: State, steps: seq<Step>): seq<Message>
    decreases |steps|
  {
    if steps == [] then [] else Emits(s, steps[0]) + Sent(Do(s, steps[0]), steps[1..])
  }

  /// But for what the worker does, the rest of the system runs alike.
  lemma ApartStep(s: State, v: State, step: Step)
    requires v == s.(tables := v.tables, results := v.results)
    requires Draining(step) && !step.Persist?
    ensures Do(v, step) == Do(s, step).(tables := v.tables, results := v.results + Emits(s, step))
  {
    hide CanTrade, ValidBook, NextTrade, Settle, Rest;
    assert v.results + [] == v.results;
  }

  lemma PersistApart(s: State)
    ensures Do(s, Persist) == s.(tables := Do(s, Persist).tables, results := Do(s, Persist).results)
    ensures Emits(s, Persist) == []
  {
  }

  /// Any schedule, with the worker's steps put off.
  lemma {:induction false} PutOff(s: State, v: State, steps: seq<Step>) returns (rest: seq<Step>)
    requires v == s.(tables := v.tables, results := v.results)
    requires forall i | 0 <= i < |steps| :: Draining(steps[i])
    ensures forall i | 0 <= i < |rest| :: Draining(rest[i]) && !rest[i].Persist?
    ensures Exec(v, rest) ==
            Exec(s, steps).(tables := v.tables, results := v.results + Sent(s, steps))
    decreases |steps|
  {
    hide Do, Emits;
    if steps == [] {
      rest := [];
      assert v.results + [] == v.results;
    } else {
      var step, u := steps[0], Do(s, steps[0]);
      var emitted := Emits(s, step);
      assert v.results + (emitted + Sent(u, steps[1..])) == v.results + emitted + Sent(u, steps[1..]);
      if step.Persist? {
        PersistApart(s);
        rest := PutOff(u, v, steps[1..]);
        assert v.results + [] == v.results;
      } else {
        ApartStep(s, v, step);
        var more := PutOff(u, Do(v, step), steps[1..]);
        rest := [step] + more;
        ExecCons(v, step, more);
      }
    }
  }

  /** The restart theorem for a busy system. The rows are read at s; the resent orders reach the
      engine when it has worked off what was queued before them, while the worker goes on in
      whatever schedule. They trade nothing and leave the books as they are if and only if
      neither what was pending at s nor what the engine has sent since holds a trade. */
  lemma ResendBusy(s: State, steps: seq<Step>, ids: seq<nat>)
    requires Coherent(s) && Selection(s.tables, ids)
    requires (forall i | 0 <= i < |steps| :: Draining(steps[i])) && Idle(Exec(s, steps))
    ensures var e := Exec(s, steps);
            && ValidBook(e.resting) && ValidTables(s.tables)
            && var r := Resent(e.resting, s.tables, ids);
               r.book == e.resting && NoTrades(r.messages) <==>
               forall m | m in s.results + Sent(s, steps) :: !m.Trade?
  {
    hide Exec, Coherent, Resent, Selection, ValidTables, NoTrades;
    var rest := PutOff(s, s, steps);
    ExecCoherent(s, rest);
    ResendExactly(Exec(s, rest), ids);
  }
}
