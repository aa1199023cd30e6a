/** Crash recovery. Whatever the interleaving and wherever the crashes fall, the tables only
    ever advance along the one path that the submitted orders determine. */
module Recovery {
  import opened Orders
  import opened Matching
  import opened Tables
  import opened Generator
  import opened Canonical
  import opened Protocol
  import opened Pipeline

  lemma {:induction false} InsertAllSnoc(t: Tables, rs: seq<Request>, r: Request)
    ensures var u := InsertAll(t, rs);
            InsertAll(t, rs + [r]) == InsertRow(u, NewOrder(MaxOrderId(u) + 1, r))
    decreases |rs|
  {
    if rs == [] {
      assert rs + [r] == [r];
      assert [r][1..] == [];
    } else {
      assert (rs + [r])[1..] == rs[1..] + [r];
      InsertAllSnoc(InsertRow(t, NewOrder(MaxOrderId(t) + 1, rs[0])), rs[1..], r);
    }
  }

  lemma {:induction false} InsertAllValid(t: Tables, rs: seq<Request>)
    requires ValidTables(t)
    ensures ValidTables(InsertAll(t, rs))
    decreases |rs|
  {
    hide ValidTables, MaxOrderId, InsertRow;
    if rs != [] {
      InsertedIsMax(t, rs[0]);
      InsertValid(t, NewOrder(MaxOrderId(t) + 1, rs[0]));
      InsertAllValid(InsertRow(t, NewOrder(MaxOrderId(t) + 1, rs[0])), rs[1..]);
    }
  }

  /** From tables `base`, with what has been submitted since, some number of messages leads to
      the tables of s. */
  ghost predicate Follows(base: Tables, from: nat, s: State) {
    from <= |s.requests| && exists n :: Path(InsertAll(base, s.requests[from..]), n, s.tables)
  }

  lemma SubmitFollows(base: Tables, from: nat, s: State, r: Request)
    requires Coherent(s) && s.phase.Generating? && s.unsent == []
    requires Follows(base, from, s)
    ensures Follows(base, from, Do(s, Submit(r)))
  {
    hide Coherent, Path, InsertAll, MaxOrderId, InsertRow, ValidTables;
    var t := InsertAll(base, s.requests[from..]);
    var n :| Path(t, n, s.tables);
    PathValid(t, n, s.tables);
    SameMax(t, s.tables);
    assert s.phase.counter == MaxOrderId(s.tables) by { CoherentCounter(s); }
    var o := NewOrder(MaxOrderId(t) + 1, r);
    InsertedIsMax(t, r);
    PathInsert(t, n, s.tables, o);
    assert (s.requests + [r])[from..] == s.requests[from..] + [r];
    InsertAllSnoc(base, s.requests[from..], r);
  }

  lemma CoherentCounter(s: State)
    requires Coherent(s) && s.phase.Generating?
    ensures s.phase.counter == MaxOrderId(s.tables)
  {
  }

  lemma PersistFollows(base: Tables, from: nat, s: State)
    requires Coherent(s) && s.results != []
    requires Follows(base, from, s)
    ensures Follows(base, from, Do(s, Persist))
  {
    hide Path, Synced;
    var t := InsertAll(base, s.requests[from..]);
    var n :| Path(t, n, s.tables);
    var m := s.results[0];
    if !Repeats(s.tables, m) {
      PathSnoc(t, n, s.tables);
      assert Commit(s.tables) == Apply(s.tables, m);
    }
  }

  lemma StepFollows(base: Tables, from: nat, s: State, step: Step)
    requires Coherent(s) && Follows(base, from, s)
    ensures Follows(base, from, Do(s, step))
  {
    hide Coherent, Path, TradeEnabled;
    match step
    case Submit(r) => if s.phase.Generating? && s.unsent == [] { SubmitFollows(base, from, s, r); }
    case Persist => if s.results != [] { PersistFollows(base, from, s); }
    case _ =>
  }

  lemma {:induction false} ExecFollows(base: Tables, from: nat, s: State, steps: seq<Step>)
    requires Coherent(s) && Follows(base, from, s)
    requires GoodRun(steps)
    ensures Follows(base, from, Exec(s, steps))
    decreases |steps|
  {
    hide Coherent, Follows, Do;
    if steps != [] {
      StepCoherent(s, steps[0]);
      StepFollows(base, from, s, steps[0]);
      ExecFollows(base, from, Do(s, steps[0]), steps[1..]);
    }
  }

  /** Safety over whole runs: from any state of a run to any later one, crashes included, the
      tables advance by exactly the messages that the tables and the new orders determine. */
  lemma RunAdvances(s: State, steps: seq<Step>)
    requires Coherent(s) && GoodRun(steps)
    ensures var e := Exec(s, steps);
            && |s.requests| <= |e.requests|
            && exists n :: Path(InsertAll(s.tables, e.requests[|s.requests|..]), n, e.tables)
  {
    CoherentTables(s);
    assert s.requests[|s.requests|..] == [];
    assert Path(InsertAll(s.tables, []), 0, s.tables);
    ExecFollows(s.tables, |s.requests|, s, steps);
  }

  /** When both queues are empty and the engine is idle, the rows the reload query selects are
      exactly the resting orders with their fills, MATCHING without a fill and PARTIALLY_FILLED
      with one; all other rows are completely filled and FULLY_FILLED; the books do not cross, and
      nothing is left to do. */
  lemma QuiescentAgreement(s: State)
    requires Coherent(s) && Quiescent(s)
    ensures OpenRows(s.tables) == s.resting
    ensures forall id | id in s.tables.orders ::
              var row := s.tables.orders[id];
              if id in s.resting then
                row.status == if row.order.filled > 0 then PARTIALLY_FILLED else MATCHING
              else row.status == FULLY_FILLED && row.order.filled == row.order.quantity
    ensures Uncrossed(s.resting)
    ensures !HasNext(s.tables)
    ensures s.phase.counter == MaxOrderId(s.tables)
  {
    var t := s.tables;
    SyncedIdle(t, s.resting);
    forall id | id in s.resting ensures id in OpenRows(t) && OpenRows(t)[id] == s.resting[id] {
      assert Recorded(t, s.resting[id]);
    }
    forall id | id in OpenRows(t) ensures id in s.resting {
      assert Selected(t.orders[id]);
    }
    forall x ensures !IsNext(t, x) {
      if x in t.orders && Selected(t.orders[x]) {
        var b, o := OpenBelow(t, x), t.orders[x].order;
        assert x in OpenRows(t);
        forall id | id in b ensures !Crosses(o, b[id]) {
          assert id in OpenRows(t);
        }
        assert Candidates(b, o) == {};
      }
    }
  }

  lemma QuiescentDetermined(s: State, u: State)
    requires Coherent(s) && Coherent(u) && Quiescent(s) && Quiescent(u)
    requires s.tables == u.tables && s.requests == u.requests
    ensures s == u
  {
    hide Coherent, MaxOrderId, HasNext;
    QuiescentAgreement(s);
    QuiescentAgreement(u);
  }

  /** Two states of any runs that agree on the tables and the submissions, whatever else their
      queues and engines hold, finish in the same state. */
  lemma TablesDecide(s: State, v: State, a: seq<Step>, b: seq<Step>)
    requires Coherent(s) && Coherent(v) && s.tables == v.tables && s.requests == v.requests
    requires GoodRun(a) && GoodRun(b)
    requires Quiescent(Exec(s, a)) && Quiescent(Exec(v, b))
    requires Exec(s, a).requests == Exec(v, b).requests
    ensures Exec(s, a) == Exec(v, b)
  {
    hide Coherent, Path, HasNext, Exec, MaxOrderId, ValidTables, GoodRun, Quiescent;
    var e, f := Exec(s, a), Exec(v, b);
    CoherentTables(s);
    ExecCoherent(s, a);
    ExecCoherent(v, b);
    RunAdvances(s, a);
    RunAdvances(v, b);
    QuiescentAgreement(e);
    QuiescentAgreement(f);
    var base := InsertAll(s.tables, e.requests[|s.requests|..]);
    var n :| Path(base, n, e.tables);
    var m :| Path(base, m, f.tables);
    PathUnique(base, n, e.tables, m, f.tables);
    QuiescentDetermined(e, f);
  }

  lemma CoherentTables(s: State)
    requires Coherent(s)
    ensures ValidTables(s.tables)
  {
  }

  lemma StartCoherent(t: Tables)
    requires ValidTables(t)
    ensures Coherent(Start(t))
  {
  }

  /** The main theorem: two runs from the same tables with the same submitted orders, however
      their steps interleave and however many crashes either of them suffers and at whatever
      point, end in the same state once they are quiescent: the same order rows, the same
      trade list and the same books. */
  lemma RunsAgree(t: Tables, a: seq<Step>, b: seq<Step>)
    requires ValidTables(t)
    requires GoodRun(a) && GoodRun(b)
    requires Quiescent(Exec(Start(t), a)) && Quiescent(Exec(Start(t), b))
    requires Exec(Start(t), a).requests == Exec(Start(t), b).requests
    ensures Exec(Start(t), a) == Exec(Start(t), b)
  {
    StartCoherent(t);
    TablesDecide(Start(t), Start(t), a, b);
  }

  /** Checkpoint recovery: stop any run at any point s, with messages pending and a taker between
      two of its trades; lose the order queue, the engine and the generator, and the result queue
      or not; reload from the tables and run on. The final state is the one that the undisturbed
      run reaches. */
  lemma CheckpointRecovery(s: State, lost: Step, recovered: seq<Step>, undisturbed: seq<Step>)
    requires Coherent(s) && (lost.Crash? || lost.EngineCrash?)
    requires GoodRun(recovered) && GoodRun(undisturbed)
    requires Quiescent(Exec(Do(s, lost), recovered)) && Quiescent(Exec(s, undisturbed))
    requires Exec(Do(s, lost), recovered).requests == Exec(s, undisturbed).requests
    ensures Exec(Do(s, lost), recovered) == Exec(s, undisturbed)
  {
    hide Coherent, Exec, GoodRun, Quiescent;
    StepCoherent(s, lost);
    TablesDecide(Do(s, lost), s, recovered, undisturbed);
  }

  // ---- every run can be completed ----

  function Rank(s: State): nat {
    match s.phase case Down => 2 case Loaded => 1 case Generating(_) => 0
  }

  function TakerWork(s: State): int {
    if s.taker.Some? then 1 + s.taker.value.Remaining() else 0
  }

  lemma CoherentTaker(s: State)
    requires Coherent(s)
    ensures TakerWork(s) >= 0
    ensures s.taker.Some? ==> s.taker.value.WellFormed()
  {
    if s.taker.Some? && !s.phase.Down? {
      SyncedTaker(ApplyAll(s.tables, s.results), s.resting, s.taker.value, s.queue + s.unsent);
    }
  }

  /** The step that brings a state that is not quiescent nearer to it. */
  ghost function Advance(s: State): Step {
    if s.phase.Down? then (if Drained(s) then Load(IdsOf(Reload(s.tables))) else Persist)
    else if s.unsent != [] then Send
    else if s.phase.Loaded? then ReadMax
    else if TradeEnabled(s) then TradeOnce
    else if s.taker.Some? then Finish
    else if s.queue != [] then Take
    else Persist
  }

  lemma AscendingInTurn(now: Tables, os: seq<Order>)
    requires Ascending(os)
    ensures InTurn(now, IdsOf(os))
  {
  }

  lemma AscendingSelects(t: Tables, os: seq<Order>)
    requires Ascending(os)
    requires forall id | id in OpenRows(t) :: OpenRows(t)[id].orderId == id
    requires forall o :: o in os <==> o.orderId in OpenRows(t) && OpenRows(t)[o.orderId] == o
    ensures Selection(t, IdsOf(os))
  {
    hide OpenRows;
    var ids := IdsOf(os);
    forall i | 0 <= i < |ids| ensures ids[i] in OpenRows(t) {
      assert os[i] in os;
    }
    forall id | id in OpenRows(t) ensures id in ids {
      var i :| 0 <= i < |os| && os[i] == OpenRows(t)[id];
      assert ids[i] == id;
    }
  }

  /// The rows by id may always be loaded.
  lemma ReloadInTurn(t: Tables, now: Tables)
    requires ValidTables(t)
    ensures Selection(t, IdsOf(Reload(t))) && InTurn(now, IdsOf(Reload(t)))
  {
    hide ById, OpenRows, Selection, InTurn, Ascending, IdsOf;
    OpenRowsValid(t);
    ByIdAscending(OpenRows(t));
    ByIdContents(OpenRows(t));
    AscendingInTurn(now, Reload(t));
    AscendingSelects(t, Reload(t));
  }

  /// u is nearer to quiescence than s.
  ghost predicate Nearer(u: State, s: State) {
    || Rank(u) < Rank(s)
    || (Rank(u) == Rank(s) &&
        (|| |u.unsent| < |s.unsent|
         || (|u.unsent| == |s.unsent| &&
             (|| |u.queue| < |s.queue|
              || (|u.queue| == |s.queue| &&
                  (|| TakerWork(u) < TakerWork(s)
                   || (TakerWork(u) == TakerWork(s) && |u.results| < |s.results|)))))))
  }

  lemma AdvanceNearer(s: State)
    requires Coherent(s) && !Quiescent(s)
    ensures Nearer(Do(s, Advance(s)), s)
    ensures Do(s, Advance(s)).requests == s.requests
  {
    hide Coherent, CanTrade, MaxOrderId, Reload, RowsOf, Selection, InTurn;
    CoherentTaker(s);
    if s.taker.Some? && TradeEnabled(s) {
      TradeWork(s);
    }
    if s.phase.Down? {
      CoherentTables(s);
      ReloadInTurn(s.tables, ApplyAll(s.tables, s.results));
      CoherentDown(s);
    }
  }

  lemma CoherentDown(s: State)
    requires Coherent(s) && s.phase.Down?
    ensures s.queue == [] && s.unsent == [] && s.taker.None?
  {
  }

  lemma TradeWork(s: State)
    requires TradeEnabled(s) && s.taker.value.WellFormed()
    ensures TakerWork(Do(s, TradeOnce)) < TakerWork(s)
  {
  }

  /// A step that neither submits an order nor loses anything nor starts another generator.
  predicate Forward(step: Step) {
    !step.Submit? && !step.Crash? && !step.EngineCrash? && !step.Restart?
  }

  /** Whatever the schedule, a step of any process that changes anything at all brings the system
      nearer to quiescence. */
  lemma EveryStepNearer(s: State, step: Step)
    requires s.taker.Some? ==> s.taker.value.WellFormed()
    requires Forward(step)
    ensures Do(s, step) == s || Nearer(Do(s, step), s)
  {
    hide CanTrade, MaxOrderId, Reload, RowsOf, Selection, InTurn;
    if step.TradeOnce? && TradeEnabled(s) {
      TradeWork(s);
    }
  }

  /** The system gets stuck nowhere short of quiescence: a state is quiescent exactly when no
      step of any process changes it. */
  lemma QuiescentExactly(s: State)
    requires Coherent(s)
    ensures Quiescent(s) <==> forall step | Forward(step) :: Do(s, step) == s
  {
    hide Coherent, Nearer, Do, Quiescent;
    if !Quiescent(s) {
      AdvanceNearer(s);
      NearerStrict(s);
      assert Forward(Advance(s));
    } else {
      QuiescentStays(s);
    }
  }

  lemma QuiescentStays(s: State)
    requires Quiescent(s)
    ensures forall step | Forward(step) :: Do(s, step) == s
  {
    hide MayLoad, CanTrade, ValidBook;
  }

  lemma NearerStrict(s: State)
    ensures !Nearer(s, s)
  {
  }

  /** From every reachable state, crashed or not, some steps without a new submission reach
      quiescence: recovery always completes. */
  lemma {:induction false} Completes(s: State) returns (steps: seq<Step>)
    requires Coherent(s)
    ensures forall i | 0 <= i < |steps| :: Forward(steps[i])
    ensures Quiescent(Exec(s, steps)) && Exec(s, steps).requests == s.requests
    decreases Rank(s), |s.unsent|, |s.queue|, TakerWork(s), |s.results|
  {
    hide Coherent, Do, Rank, TakerWork, TradeEnabled, Exec;
    if Quiescent(s) {
      steps := [];
      ExecNone(s);
    } else {
      var step := Advance(s);
      var u := Do(s, step);
      AdvanceNearer(s);
      StepCoherent(s, step);
      CoherentTaker(s);
      CoherentTaker(u);
      var rest := Completes(u);
      steps := [step] + rest;
      ExecCons(s, step, rest);
    }
  }
}
