/** What holds in every interleaving of the three processes, crashes included. */
module Pipeline {
  import opened Fees
  import opened Orders
  import opened Matching
  import opened BookInvariants
  import opened Tables
  import opened Canonical
  import opened Protocol
  import opened PriceLevels
  import opened Engine

  // ---- the engine and the tables ----

  /// Row id holds exactly the order o.
  predicate Recorded(t: Tables, o: Order) {
    o.orderId in t.orders && t.orders[o.orderId].order == o
  }

  /// The orders of os lie above id, and ascend.
  predicate AscendAbove(id: nat, os: seq<Order>) {
    Ascending(os) && forall o | o in os :: id < o.orderId
  }

  /// The resting orders are recorded, have left INITIAL and do not cross.
  ghost predicate RestingOk(t: Tables, resting: Book) {
    && ValidBook(resting) && Uncrossed(resting)
    && forall id | id in resting :: Recorded(t, resting[id]) && t.orders[id].status != INITIAL
  }

  ghost predicate WaitingOk(t: Tables, waiting: seq<Order>) {
    forall o | o in waiting :: Recorded(t, o) && o.Open()
  }

  /// `resting`, then `taker`, then `waiting` are in ascending id order.
  ghost predicate InOrder(resting: Book, taker: Option<Order>, waiting: seq<Order>) {
    && Ascending(waiting)
    && (taker.Some? ==>
          && AscendAbove(taker.value.orderId, waiting)
          && forall id | id in resting :: id < taker.value.orderId)
    && (forall id, o | id in resting && o in waiting :: id < o.orderId)
  }

  /// Every open row is resting, being matched or waiting.
  ghost predicate Covered(t: Tables, resting: Book, taker: Option<Order>, waiting: seq<Order>) {
    forall id | id in t.orders && Selected(t.orders[id]) ::
      id in resting || (taker.Some? && taker.value.orderId == id) || t.orders[id].order in waiting
  }

  /** The engine against tables t: what it holds and what waits for it are exactly the open
      rows, each with its exact fill. */
  ghost predicate Aligned(t: Tables, resting: Book, taker: Option<Order>, waiting: seq<Order>) {
    && ValidTables(t)
    && RestingOk(t, resting)
    && (taker.Some? ==> Recorded(t, taker.value))
    && WaitingOk(t, waiting)
    && InOrder(resting, taker, waiting)
    && Covered(t, resting, taker, waiting)
  }

  /// The open rows below the current taker are exactly the resting orders.
  lemma RestingIsOpenBelow(t: Tables, resting: Book, o: Order, waiting: seq<Order>)
    requires Aligned(t, resting, Some(o), waiting)
    ensures OpenBelow(t, o.orderId) == resting
  {
    var b := OpenBelow(t, o.orderId);
    forall id | id in b ensures id in resting && resting[id] == b[id] {
      assert Selected(t.orders[id]);
      assert t.orders[id].order.orderId == id;
    }
    forall id | id in resting ensures id in b {
      assert Recorded(t, resting[id]);
    }
  }

  /// Nothing below the current taker has anything left to do.
  lemma SettledBelow(t: Tables, resting: Book, o: Order, waiting: seq<Order>)
    requires Aligned(t, resting, Some(o), waiting)
    ensures forall y: nat | y < o.orderId :: !Unsettled(t, y)
  {
    RestingIsOpenBelow(t, resting, o, waiting);
    forall y: nat | y < o.orderId ensures !Unsettled(t, y) {
      if y in t.orders && Selected(t.orders[y]) {
        assert y in OpenBelow(t, o.orderId);
        var b, p := OpenBelow(t, y), t.orders[y].order;
        forall id | id in b ensures !Crosses(p, b[id]) {
          assert id in OpenBelow(t, o.orderId);
          assert resting[id] == b[id] && resting[y] == p;
        }
        assert Candidates(b, p) == {};
      }
    }
  }

  /** The message the engine emits for its taker is the one the tables determine; the only
      exception is a repeated report of an order that already rests, which changes nothing. */
  lemma TakerIsNext(t: Tables, resting: Book, o: Order, waiting: seq<Order>)
    requires Aligned(t, resting, Some(o), waiting)
    requires CanTrade(resting, o) || t.orders[o.orderId].status == INITIAL
    ensures IsNext(t, o.orderId) && HasNext(t)
    ensures NextMessage(t) == MessageFor(resting, o)
  {
    RestingIsOpenBelow(t, resting, o, waiting);
    SettledBelow(t, resting, o, waiting);
    assert Recorded(t, o);
    NextIs(t, o.orderId);
  }

  /// u is t after taker and maker have been updated.
  ghost predicate Updated(t: Tables, u: Tables, taker: Order, maker: Order) {
    && ValidTables(u)
    && u.orders == t.orders[taker.orderId := Row(taker, StatusOf(taker))]
                           [maker.orderId := Row(maker, StatusOf(maker))]
  }

  lemma RestingAfterTrade(t: Tables, u: Tables, resting: Book, taker: Order, maker: Order)
    requires RestingOk(t, resting) && Updated(t, u, taker, maker)
    requires taker.orderId !in resting && maker.orderId in resting
    requires ValidBook(Settle(resting, maker)) && Uncrossed(Settle(resting, maker))
    ensures RestingOk(u, Settle(resting, maker))
  {
    var b := Settle(resting, maker);
    forall id | id in b ensures Recorded(u, b[id]) && u.orders[id].status != INITIAL {
      assert id != maker.orderId ==> b[id] == resting[id] && Recorded(t, resting[id]);
    }
  }

  lemma WaitingAfterTrade(t: Tables, u: Tables, resting: Book, taker: Order, maker: Order,
                          waiting: seq<Order>)
    requires WaitingOk(t, waiting) && InOrder(resting, Some(taker), waiting)
    requires Updated(t, u, taker, maker) && maker.orderId in resting
    ensures WaitingOk(u, waiting)
  {
    forall p | p in waiting ensures Recorded(u, p) {
      assert Recorded(t, p) && taker.orderId < p.orderId && maker.orderId < p.orderId;
    }
  }

  lemma CoveredAfterTrade(t: Tables, u: Tables, resting: Book, taker: Order, maker: Order,
                          waiting: seq<Order>)
    requires Covered(t, resting, Some(taker), waiting) && Updated(t, u, taker, maker)
    requires maker.orderId in resting && taker.orderId in t.orders
    requires maker.orderId in t.orders
    ensures Covered(u, Settle(resting, maker), Some(taker), waiting)
  {
  }

  lemma AlignedTrade(t: Tables, resting: Book, o: Order, waiting: seq<Order>)
    requires Aligned(t, resting, Some(o), waiting)
    requires CanTrade(resting, o)
    ensures var x := NextTrade(resting, o);
            Aligned(Apply(t, x.Report()), Settle(resting, x.maker), Some(x.taker), waiting)
  {
    hide Execute, Candidates, Apply, NextTrade, Uncrossed, Covered, StatusOf;
    TradeTouches(resting, o);
    SettleShrinks(resting, o);
    var x := NextTrade(resting, o);
    var m := resting[x.maker.orderId];
    assert Recorded(t, m) && Recorded(t, o);
    ApplyTrade(t, o, m);
    var u := Apply(t, x.Report());
    DepletedUncrossed(resting, Settle(resting, x.maker));
    RestingAfterTrade(t, u, resting, x.taker, x.maker);
    WaitingAfterTrade(t, u, resting, x.taker, x.maker, waiting);
    assert Covered(t, resting, Some(x.taker), waiting) by { CoveredSame(t, resting, o, x.taker, waiting); }
    CoveredAfterTrade(t, u, resting, x.taker, x.maker, waiting);
  }

  lemma CoveredSame(t: Tables, resting: Book, o: Order, p: Order, waiting: seq<Order>)
    requires o.orderId == p.orderId && Covered(t, resting, Some(o), waiting)
    ensures Covered(t, resting, Some(p), waiting)
  {
  }

  /// The silent end of a taker: nothing is reported.
  lemma AlignedRest(t: Tables, resting: Book, o: Order, waiting: seq<Order>)
    requires Aligned(t, resting, Some(o), waiting)
    requires !CanTrade(resting, o)
    requires o.Open() ==> t.orders[o.orderId].status != INITIAL
    ensures Aligned(t, Rest(resting, o), None, waiting)
  {
    RestUncrossed(resting, o);
    assert Recorded(t, o);
  }

  /// A report of an order that has not traded.
  lemma AlignedReport(t: Tables, resting: Book, o: Order, waiting: seq<Order>)
    requires Aligned(t, resting, Some(o), waiting)
    requires o.filled == 0
    ensures o.Open()
    ensures var u := Apply(t, UnmatchedOrder(o));
            && Aligned(u, resting, Some(o), waiting)
            && u.orders[o.orderId].status == MATCHING
            && (t.orders[o.orderId].status != INITIAL ==> u == t)
  {
    assert Recorded(t, o);
    ApplyUnmatched(t, o);
    var u := Apply(t, UnmatchedOrder(o));
    forall id | id in resting ensures Recorded(u, resting[id]) && u.orders[id].status != INITIAL {
      assert Recorded(t, resting[id]);
    }
    forall p | p in waiting ensures Recorded(u, p) {
      assert Recorded(t, p) && o.orderId < p.orderId;
    }
    if t.orders[o.orderId].status != INITIAL {
      assert u.orders == t.orders;
    }
  }

  lemma TailMembers(waiting: seq<Order>)
    requires waiting != []
    ensures waiting[0] in waiting
    ensures forall p | p in waiting[1..] :: p in waiting
    ensures forall p | p in waiting :: p == waiting[0] || p in waiting[1..]
  {
    assert waiting == [waiting[0]] + waiting[1..];
  }

  lemma TakeInOrder(resting: Book, waiting: seq<Order>)
    requires InOrder(resting, None, waiting) && waiting != []
    ensures InOrder(resting, Some(waiting[0]), waiting[1..])
  {
    TailMembers(waiting);
    var o, rest := waiting[0], waiting[1..];
    forall p | p in rest ensures o.orderId < p.orderId {
      var i :| 0 <= i < |rest| && rest[i] == p;
      assert waiting[i + 1] == p;
    }
    forall i, j | 0 <= i < j < |rest| ensures rest[i].orderId < rest[j].orderId {
      assert rest[i] == waiting[i + 1] && rest[j] == waiting[j + 1];
    }
  }

  lemma TakeCovered(t: Tables, resting: Book, waiting: seq<Order>)
    requires Covered(t, resting, None, waiting) && waiting != [] && ValidTables(t)
    ensures Covered(t, resting, Some(waiting[0]), waiting[1..])
  {
    TailMembers(waiting);
    forall id | id in t.orders && Selected(t.orders[id])
      ensures id in resting || waiting[0].orderId == id || t.orders[id].order in waiting[1..]
    {
      assert ValidRow(id, t.orders[id]);
    }
  }

  lemma AlignedTake(t: Tables, resting: Book, waiting: seq<Order>)
    requires Aligned(t, resting, None, waiting) && waiting != []
    ensures Aligned(t, resting, Some(waiting[0]), waiting[1..])
  {
    hide ValidTables, RestingOk, InOrder, Covered, Recorded;
    TailMembers(waiting);
    TakeInOrder(resting, waiting);
    TakeCovered(t, resting, waiting);
  }

  lemma AlignedInsert(t: Tables, resting: Book, taker: Option<Order>, waiting: seq<Order>, o: Order)
    requires Aligned(t, resting, taker, waiting)
    requires AboveAll(t, o) && o.WellFormed() && o.filled == 0 && Representable(o.feeRate)
    ensures Aligned(InsertRow(t, o), resting, taker, waiting + [o])
  {
    hide ValidTables, Uncrossed, StoredRate, InOrder, Covered, InsertRow;
    InsertValid(t, o);
    InsertedRow(t, o);
    var u, all := InsertRow(t, o), waiting + [o];
    assert RestingOk(u, resting) by {
      forall id | id in resting ensures Recorded(u, resting[id]) && u.orders[id].status != INITIAL {
        assert Recorded(t, resting[id]);
      }
    }
    assert WaitingOk(u, all) by {
      forall p | p in all ensures Recorded(u, p) && p.Open() {
        assert p == o || Recorded(t, p);
      }
    }
    InsertInOrder(t, resting, taker, waiting, o);
    InsertCovered(t, u, resting, taker, waiting, o);
  }

  lemma InsertedRow(t: Tables, o: Order)
    requires AboveAll(t, o) && Representable(o.feeRate)
    ensures InsertRow(t, o) == t.(orders := t.orders[o.orderId := Row(o, INITIAL)])
    ensures o.orderId !in t.orders
  {
    StoredRateExact(o.feeRate);
  }

  lemma InsertInOrder(t: Tables, resting: Book, taker: Option<Order>, waiting: seq<Order>, o: Order)
    requires RestingOk(t, resting) && WaitingOk(t, waiting) && InOrder(resting, taker, waiting)
    requires taker.Some? ==> Recorded(t, taker.value)
    requires AboveAll(t, o)
    ensures InOrder(resting, taker, waiting + [o])
  {
    var all := waiting + [o];
    forall p | p in waiting ensures p.orderId < o.orderId {
      assert Recorded(t, p);
    }
    forall id | id in resting ensures id < o.orderId {
      assert Recorded(t, resting[id]);
    }
    forall i, j | 0 <= i < j < |all| ensures all[i].orderId < all[j].orderId {
      assert all[i] == waiting[i] && waiting[i] in waiting;
    }
  }

  lemma InsertCovered(t: Tables, u: Tables, resting: Book, taker: Option<Order>, waiting: seq<Order>,
                      o: Order)
    requires Covered(t, resting, taker, waiting)
    requires u.orders == t.orders[o.orderId := Row(o, INITIAL)]
    ensures Covered(u, resting, taker, waiting + [o])
  {
    forall id | id in u.orders && Selected(u.orders[id])
      ensures id in resting || (taker.Some? && taker.value.orderId == id) || u.orders[id].order in waiting + [o]
    {
      assert id != o.orderId ==> id in t.orders && u.orders[id] == t.orders[id];
    }
  }

  // ---- a generator that comes up next to a live engine ----

  /// o repeats an order of b exactly.
  predicate Echo(b: Book, o: Order) {
    o.orderId in b && b[o.orderId] == o
  }

  /** Part of a book: the engine holds some of the orders of v and gets the others again. */
  predicate PartOf(resting: Book, v: Book) {
    forall id | id in resting :: id in v && v[id] == resting[id]
  }

  /** The engine is being sent settled orders, some of which it may hold already. Once it has
      them all it holds v; what waits beyond the first d orders is as usual. */
  ghost predicate Rebuilding(t: Tables, resting: Book, taker: Option<Order>, waiting: seq<Order>,
                             d: nat, v: Book) {
    && d <= |waiting|
    && Aligned(t, v, None, waiting[d..])
    && PartOf(resting, v)
    && (taker.Some? ==> Echo(v, taker.value))
    && (forall i | 0 <= i < d :: Echo(v, waiting[i]))
    && (forall id | id in v ::
          id in resting || (taker.Some? && taker.value.orderId == id) || v[id] in waiting[..d])
  }

  ghost predicate Synced(t: Tables, resting: Book, taker: Option<Order>, waiting: seq<Order>) {
    || Aligned(t, resting, taker, waiting)
    || exists d: nat, v: Book :: Rebuilding(t, resting, taker, waiting, d, v)
  }

  lemma EchoCannotTrade(resting: Book, v: Book, o: Order)
    requires ValidBook(v) && Uncrossed(v) && PartOf(resting, v) && Echo(v, o)
    ensures ValidBook(resting) && !CanTrade(resting, o)
  {
    assert forall id | id in resting :: !Crosses(o, v[id]);
    assert Candidates(resting, o) == {};
  }

  /// Only an order that is not resent can trade.
  lemma SyncedTrades(t: Tables, resting: Book, o: Order, waiting: seq<Order>)
    requires Synced(t, resting, Some(o), waiting) && CanTrade(resting, o)
    ensures Aligned(t, resting, Some(o), waiting)
  {
    if d: nat, v: Book :| Rebuilding(t, resting, Some(o), waiting, d, v) {
      EchoCannotTrade(resting, v, o);
    }
  }

  /// A resent order takes its place, and is at most reported again.
  lemma EchoFinish(t: Tables, resting: Book, o: Order, waiting: seq<Order>, d: nat, v: Book)
    requires Rebuilding(t, resting, Some(o), waiting, d, v)
    ensures ValidBook(resting) && !CanTrade(resting, o)
    ensures Rebuilding(t, Rest(resting, o), None, waiting, d, v)
    ensures forall p | Echo(v, p) && Echo(resting, p) :: Echo(Rest(resting, o), p)
    ensures o.filled == 0 ==> Repeats(t, UnmatchedOrder(o))
  {
    hide Repeats, Aligned, CanTrade, ValidBook;
    EchoQuiet(t, resting, o, waiting[d..], v);
  }

  lemma EchoQuiet(t: Tables, resting: Book, o: Order, unseen: seq<Order>, v: Book)
    requires Aligned(t, v, None, unseen) && PartOf(resting, v) && Echo(v, o)
    ensures ValidBook(resting) && !CanTrade(resting, o) && o.Open()
    ensures o.filled == 0 ==> Repeats(t, UnmatchedOrder(o))
  {
    hide Repeats, CanTrade, Uncrossed;
    EchoCannotTrade(resting, v, o);
    if o.filled == 0 {
      EchoRepeats(t, v, o);
    }
  }

  lemma EchoRepeats(t: Tables, v: Book, o: Order)
    requires ValidTables(t) && RestingOk(t, v) && Echo(v, o) && o.filled == 0
    ensures Repeats(t, UnmatchedOrder(o))
  {
    hide Uncrossed;
    assert Recorded(t, v[o.orderId]);
    ApplyUnmatched(t, o);
    assert t.orders[o.orderId] == Row(o, MATCHING);
    assert t.orders[o.orderId := Row(o, MATCHING)] == t.orders;
  }

  lemma SyncedTake(t: Tables, resting: Book, waiting: seq<Order>)
    requires Synced(t, resting, None, waiting) && waiting != []
    ensures Synced(t, resting, Some(waiting[0]), waiting[1..])
  {
    hide Aligned, Rebuilding;
    if d: nat, v: Book :| d > 0 && Rebuilding(t, resting, None, waiting, d, v) {
      RebuildingTake(t, resting, waiting, d, v);
    } else {
      SyncedFresh(t, resting, waiting);
      AlignedTake(t, resting, waiting);
    }
  }

  lemma RebuildingTake(t: Tables, resting: Book, waiting: seq<Order>, d: nat, v: Book)
    requires Rebuilding(t, resting, None, waiting, d, v) && d > 0
    ensures Rebuilding(t, resting, Some(waiting[0]), waiting[1..], d - 1, v)
  {
    hide Aligned;
    var o, rest := waiting[0], waiting[1..];
    assert rest[d - 1..] == waiting[d..];
    assert forall i | 0 <= i < d - 1 :: rest[i] == waiting[i + 1];
    assert waiting[..d] == [o] + rest[..d - 1];
    forall id | id in v && id !in resting ensures o.orderId == id || v[id] in rest[..d - 1] {
      assert v[id] in [o] + rest[..d - 1];
      BookKey(t, v, waiting[d..], id);
    }
  }

  lemma BookKey(t: Tables, v: Book, unseen: seq<Order>, id: nat)
    requires Aligned(t, v, None, unseen) && id in v
    ensures v[id].orderId == id
  {
  }

  /// With nothing left to resend the engine is simply aligned.
  lemma SyncedFresh(t: Tables, resting: Book, waiting: seq<Order>)
    requires Synced(t, resting, None, waiting)
    requires waiting == [] || !exists d: nat, v: Book :: d > 0 && Rebuilding(t, resting, None, waiting, d, v)
    ensures Aligned(t, resting, None, waiting)
  {
    hide Aligned;
    if d: nat, v: Book :| Rebuilding(t, resting, None, waiting, d, v) {
      assert d == 0 && waiting[..0] == [] && waiting[0..] == waiting;
      assert resting == v;
    }
  }

  lemma SyncedTaker(t: Tables, resting: Book, o: Order, waiting: seq<Order>)
    requires Synced(t, resting, Some(o), waiting)
    ensures o.WellFormed()
  {
    if Aligned(t, resting, Some(o), waiting) {
      assert Recorded(t, o) && ValidRow(o.orderId, t.orders[o.orderId]);
    } else {
      var d: nat, v: Book :| Rebuilding(t, resting, Some(o), waiting, d, v);
      assert Echo(v, o);
    }
  }

  lemma SyncedIdle(t: Tables, resting: Book)
    requires Synced(t, resting, None, [])
    ensures Aligned(t, resting, None, [])
  {
    SyncedFresh(t, resting, []);
  }

  lemma SyncedInsert(t: Tables, resting: Book, taker: Option<Order>, waiting: seq<Order>, o: Order)
    requires Synced(t, resting, taker, waiting)
    requires AboveAll(t, o) && o.WellFormed() && o.filled == 0 && Representable(o.feeRate)
    ensures Synced(InsertRow(t, o), resting, taker, waiting + [o])
  {
    hide Aligned, Echo, PartOf, InsertRow, AboveAll;
    if Aligned(t, resting, taker, waiting) {
      AlignedInsert(t, resting, taker, waiting, o);
    } else {
      var d: nat, v: Book :| Rebuilding(t, resting, taker, waiting, d, v);
      AlignedInsert(t, v, None, waiting[d..], o);
      assert (waiting + [o])[d..] == waiting[d..] + [o];
      assert (waiting + [o])[..d] == waiting[..d];
      assert Rebuilding(InsertRow(t, o), resting, taker, waiting + [o], d, v);
    }
  }

  /// The book v that the engine will hold when it has been resent everything, and the orders
  /// among the waiting ones that are not resent.
  lemma SyncedRest(t: Tables, resting: Book, waiting: seq<Order>) returns (v: Book, unseen: seq<Order>)
    requires Synced(t, resting, None, waiting)
    ensures Aligned(t, v, None, unseen) && PartOf(resting, v)
    ensures forall o | o in unseen :: o in waiting
    ensures forall id | id in v :: id in resting || v[id] in waiting
  {
    hide Aligned, Echo;
    if Aligned(t, resting, None, waiting) {
      v, unseen := resting, waiting;
    } else {
      var d: nat, w: Book :| Rebuilding(t, resting, None, waiting, d, w);
      v, unseen := w, waiting[d..];
    }
  }

  lemma AlignedBooks(t: Tables, resting: Book, unseen: seq<Order>)
    requires Aligned(t, resting, None, unseen)
    ensures ValidBook(OpenRows(t)) && ValidBook(resting) && Ascending(unseen)
    ensures forall o, p | Echo(resting, o) && p in unseen :: o.orderId < p.orderId
  {
    OpenRowsValid(t);
  }

  lemma OpenRowOwner(t: Tables, resting: Book, unseen: seq<Order>, o: Order)
    requires Aligned(t, resting, None, unseen)
    ensures (o.orderId in OpenRows(t) && OpenRows(t)[o.orderId] == o) <==> (Echo(resting, o) || o in unseen)
  {
    if Echo(resting, o) {
      assert Recorded(t, resting[o.orderId]);
    }
    if o in unseen {
      assert Recorded(t, o);
    }
  }

  // ---- reading the rows ----

  /// Nothing is left to do up to an order of the engine's book.
  lemma AlignedSettled(t: Tables, v: Book, unseen: seq<Order>, id: nat)
    requires Aligned(t, v, None, unseen) && id in v
    ensures SettledUpTo(t, id)
  {
    forall y: nat | y <= id ensures !Unsettled(t, y) {
      if y in t.orders && Selected(t.orders[y]) {
        assert ValidRow(y, t.orders[y]);
        assert y in v;
        assert Recorded(t, v[y]);
        var b, p := OpenBelow(t, y), t.orders[y].order;
        forall k | k in b ensures !Crosses(p, b[k]) {
          assert ValidRow(k, t.orders[k]);
          assert k in v && Recorded(t, v[k]);
        }
        assert Candidates(b, p) == {};
      }
    }
  }

  lemma RowsOfOpen(t: Tables, ids: seq<nat>)
    requires ValidTables(t) && Selection(t, ids)
    ensures forall i | 0 <= i < |ids| ::
              var o := RowsOf(t, ids)[i];
              o.orderId == ids[i] && o.Open() && Recorded(t, o) && Selected(t.orders[ids[i]])
    ensures forall id | id in t.orders && Selected(t.orders[id]) :: id in ids
  {
    OpenRowsValid(t);
    forall i | 0 <= i < |ids| ensures ids[i] in OpenRows(t) {
      assert ids[i] in ids;
    }
    forall id | id in t.orders && Selected(t.orders[id]) ensures id in ids {
      assert id in OpenRows(t);
    }
  }

  /// The open rows below x are settled: they make a book the engine can rest on.
  lemma BelowRests(t: Tables, x: nat)
    requires ValidTables(t) && forall y: nat | y < x :: !Unsettled(t, y)
    ensures RestingOk(t, OpenBelow(t, x))
  {
    hide CanTrade, Uncrossed;
    BelowUncrossed(t, x);
    var w := OpenBelow(t, x);
    forall id | id in w ensures Recorded(t, w[id]) && t.orders[id].status != INITIAL {
      assert ValidRow(id, t.orders[id]) && !Unsettled(t, id);
    }
  }

  /// ids names the open rows, those below x first and the others by id.
  ghost predicate SplitAt(t: Tables, ids: seq<nat>, x: nat, d: nat) {
    && d <= |ids|
    && (forall i | 0 <= i < d :: ids[i] < x)
    && (forall i | d <= i < |ids| :: x <= ids[i])
    && (forall i, j | d <= i < j < |ids| :: ids[i] < ids[j])
  }

  lemma InTurnSplit(t: Tables, ids: seq<nat>) returns (x: nat, d: nat)
    requires Selection(t, ids) && InTurn(t, ids)
    ensures forall y: nat | y < x :: !Unsettled(t, y)
    ensures Unsettled(t, x) || forall id | id in t.orders :: id < x
    ensures SplitAt(t, ids, x, d)
  {
    hide Unsettled;
    x := NextOrEnd(t);
    forall i, j | 0 <= i < j < |ids| ensures ids[i] < ids[j] || ids[i] < x {
      assert ids[i] in ids && ids[i] in OpenRows(t);
    }
    d := InTurnSplits(ids, x);
  }

  lemma SplitFirst(t: Tables, ids: seq<nat>, x: nat, d: nat)
    requires ValidTables(t) && Selection(t, ids) && SplitAt(t, ids, x, d)
    ensures forall i | 0 <= i < d :: Echo(OpenBelow(t, x), RowsOf(t, ids)[i])
    ensures forall id | id in OpenBelow(t, x) :: OpenBelow(t, x)[id] in RowsOf(t, ids)[..d]
  {
    RowsOfOpen(t, ids);
    var rows := RowsOf(t, ids);
    forall id | id in OpenBelow(t, x) ensures OpenBelow(t, x)[id] in rows[..d] {
      var i :| 0 <= i < |ids| && ids[i] == id;
      assert i < d && rows[..d][i] == rows[i];
    }
  }

  lemma SplitOthers(t: Tables, ids: seq<nat>, x: nat, d: nat)
    requires ValidTables(t) && Selection(t, ids) && SplitAt(t, ids, x, d)
    ensures var rest := RowsOf(t, ids)[d..];
            && WaitingOk(t, rest) && Ascending(rest)
            && (forall o | o in rest :: x <= o.orderId)
            && Covered(t, OpenBelow(t, x), None, rest)
  {
    RowsOfOpen(t, ids);
    hide Selection, ValidTables, Recorded;
    var rows := RowsOf(t, ids);
    var rest := rows[d..];
    assert forall i | 0 <= i < |rest| :: rest[i] == rows[d + i];
    forall o | o in rest ensures Recorded(t, o) && o.Open() && x <= o.orderId {
      var i :| 0 <= i < |rest| && rest[i] == o;
      assert o == rows[d + i];
    }
    SplitCovers(t, ids, x, d);
  }

  lemma SplitCovers(t: Tables, ids: seq<nat>, x: nat, d: nat)
    requires ValidTables(t) && Selection(t, ids) && SplitAt(t, ids, x, d)
    ensures Covered(t, OpenBelow(t, x), None, RowsOf(t, ids)[d..])
  {
    RowsOfOpen(t, ids);
    hide Selection, ValidTables, Recorded;
    var rows := RowsOf(t, ids);
    forall id | id in t.orders && Selected(t.orders[id]) && x <= id
      ensures t.orders[id].order in rows[d..]
    {
      var i :| 0 <= i < |ids| && ids[i] == id;
      assert rows[d..][i - d] == rows[i];
    }
  }

  /// Rows that come in turn are settled ones and then the others by id.
  lemma ReloadAligned(t: Tables, ids: seq<nat>, x: nat, d: nat)
    requires ValidTables(t) && Selection(t, ids) && SplitAt(t, ids, x, d)
    requires forall y: nat | y < x :: !Unsettled(t, y)
    ensures Aligned(t, OpenBelow(t, x), None, RowsOf(t, ids)[d..])
  {
    hide Unsettled, RestingOk, ValidTables, WaitingOk, Covered, Ascending, Selection, SplitAt, RowsOf;
    SplitOthers(t, ids, x, d);
    BelowRests(t, x);
  }

  /** A generator that comes up keeps engine and tables in step as long as the rows come in
      turn: the engine ends with the settled rows and what waits for it. */
  lemma SyncedLoad(t: Tables, resting: Book, v: Book, unseen: seq<Order>, ids: seq<nat>)
    requires Aligned(t, v, None, unseen) && PartOf(resting, v)
    requires Selection(t, ids) && InTurn(t, ids)
    ensures Synced(t, resting, None, RowsOf(t, ids))
  {
    hide Unsettled, Aligned, InTurn, OpenBelow;
    AlignedValid(t, v, None, unseen);
    var x, d := InTurnSplit(t, ids);
    var w := OpenBelow(t, x);
    ReloadAligned(t, ids, x, d);
    SplitFirst(t, ids, x, d);
    assert PartOf(resting, w) by { SettledBelowNext(t, v, unseen, x); }
    assert Rebuilding(t, resting, None, RowsOf(t, ids), d, w);
  }

  lemma SettledBelowNext(t: Tables, v: Book, unseen: seq<Order>, x: nat)
    requires Aligned(t, v, None, unseen)
    requires Unsettled(t, x) || forall id | id in t.orders :: id < x
    ensures PartOf(v, OpenBelow(t, x))
  {
    hide Unsettled;
    forall id | id in v ensures id in OpenBelow(t, x) && OpenBelow(t, x)[id] == v[id] {
      assert Recorded(t, v[id]);
      AlignedSettled(t, v, unseen, id);
    }
  }

  /// Nothing is aligned or being rebuilt unless the rows came in turn.
  lemma SyncedInTurn(t: Tables, resting: Book, ids: seq<nat>)
    requires ValidTables(t) && Selection(t, ids) && Synced(t, resting, None, RowsOf(t, ids))
    ensures InTurn(t, ids)
  {
    hide Unsettled, Aligned, Selected, ValidTables, Recorded;
    var rows := RowsOf(t, ids);
    RowsOfOpen(t, ids);
    if Aligned(t, resting, None, rows) {
      AlignedBooks(t, resting, rows);
      assert forall i, j | 0 <= i < j < |ids| :: rows[i].orderId < rows[j].orderId;
    } else {
      var d: nat, v: Book :| Rebuilding(t, resting, None, rows, d, v);
      var rest := rows[d..];
      AlignedBooks(t, v, rest);
      forall i, j | 0 <= i < j < |ids| ensures ids[i] < ids[j] || SettledUpTo(t, ids[i]) {
        if i < d {
          AlignedSettled(t, v, rest, ids[i]);
        } else {
          assert rows[i] == rest[i - d] && rows[j] == rest[j - d];
        }
      }
    }
  }

  // ---- the result queue ----

  /// A report of an order that is already recorded as resting unfilled.
  predicate Repeats(t: Tables, m: Message) {
    m.UnmatchedOrder? && m.order.orderId in t.orders && Apply(t, m) == t
  }

  /// Every message in the queue is, when its turn comes, the one that the tables determine,
  /// or a repetition that changes nothing.
  ghost predicate Pending(t: Tables, ms: seq<Message>)
    decreases |ms|
  {
    && ValidTables(t)
    && (ms != [] ==>
          && (Repeats(t, ms[0]) || (HasNext(t) && NextMessage(t) == ms[0]))
          && Pending(Apply(t, ms[0]), ms[1..]))
  }

  lemma {:induction false} PendingEnd(t: Tables, ms: seq<Message>)
    requires Pending(t, ms)
    ensures ValidTables(ApplyAll(t, ms))
    decreases |ms|
  {
    hide ValidTables, HasNext, Apply;
    if ms != [] {
      PendingEnd(Apply(t, ms[0]), ms[1..]);
    }
  }

  lemma {:induction false} PendingSnoc(t: Tables, ms: seq<Message>, m: Message)
    requires Pending(t, ms)
    requires var u := ApplyAll(t, ms);
             && ValidTables(u) && ValidTables(Apply(u, m))
             && (Repeats(u, m) || (HasNext(u) && NextMessage(u) == m))
    ensures Pending(t, ms + [m])
    ensures ApplyAll(t, ms + [m]) == Apply(ApplyAll(t, ms), m)
    decreases |ms|
  {
    hide ValidTables, HasNext, Apply, Repeats;
    if ms == [] {
      assert ms + [m] == [m];
      assert [m][1..] == [];
    } else {
      assert (ms + [m])[1..] == ms[1..] + [m];
      PendingSnoc(Apply(t, ms[0]), ms[1..], m);
    }
  }

  lemma {:induction false} PendingInsert(t: Tables, ms: seq<Message>, o: Order)
    requires Pending(t, ms)
    requires AboveAll(t, o) && o.WellFormed() && o.filled == 0
    ensures Pending(InsertRow(t, o), ms)
    ensures ApplyAll(InsertRow(t, o), ms) == InsertRow(ApplyAll(t, ms), o)
    decreases |ms|
  {
    hide ValidTables, HasNext;
    InsertValid(t, o);
    if ms != [] {
      var m := ms[0];
      if Repeats(t, m) {
        InsertCommutes(t, o, m);
      } else {
        NextMentionsRows(t);
        InsertCommutes(t, o, m);
        InsertNext(t, o);
      }
      PendingInsert(Apply(t, m), ms[1..], o);
    }
  }

  /// Reports alone leave the orders of all rows, and so what a reload selects, as they are.
  lemma {:induction false} ReportsKeepOrders(t: Tables, ms: seq<Message>)
    requires Pending(t, ms) && forall m | m in ms :: !m.Trade?
    ensures OpenRows(ApplyAll(t, ms)) == OpenRows(t)
    decreases |ms|
  {
    hide OpenRows, Apply, ValidTables;
    if ms != [] {
      assert ms[0] in ms;
      if !Repeats(t, ms[0]) {
        ReportKeepsOrders(t);
      }
      assert forall m | m in ms[1..] :: m in ms;
      ReportsKeepOrders(Apply(t, ms[0]), ms[1..]);
    }
  }

  lemma ReportKeepsOrders(t: Tables)
    requires ValidTables(t) && HasNext(t) && !NextMessage(t).Trade?
    ensures OpenRows(Apply(t, NextMessage(t))) == OpenRows(t)
  {
    var x :| IsNext(t, x);
    NextIs(t, x);
    MessageApplied(t, x);
  }

  // ---- the whole system ----

  /** The pipeline invariant. With the pending results applied, every order row agrees with
      what the engine holds; the orders still waiting are recorded as they wait; and the
      pending results are exactly what the tables call for. */
  ghost predicate Coherent(s: State) {
    && Pending(s.tables, s.results)
    && (s.phase.Generating? ==> s.phase.counter == MaxOrderId(s.tables))
    && if s.phase.Down? then
         s == Start(s.tables).(requests := s.requests, results := s.results)
       else
         Synced(ApplyAll(s.tables, s.results), s.resting, s.taker, s.queue + s.unsent)
  }

  predicate GoodStep(step: Step) {
    step.Submit? ==> Representable(step.request.feeRate)
  }

  /// Every submitted fee rate has at most four decimals.
  ghost predicate GoodRun(steps: seq<Step>) {
    forall i | 0 <= i < |steps| :: GoodStep(steps[i])
  }

  lemma AlignedLoad(t: Tables)
    requires ValidTables(t)
    ensures Aligned(t, map[], None, Reload(t))
  {
    OpenRowsValid(t);
    ByIdContents(OpenRows(t));
    ByIdAscending(OpenRows(t));
  }

  /// What a generator that comes up now finds: the engine will hold v and has yet to see unseen.
  lemma CoherentRest(s: State) returns (v: Book, unseen: seq<Order>)
    requires Coherent(s) && s.queue == [] && s.taker.None?
    ensures Aligned(ApplyAll(s.tables, s.results), v, None, unseen) && PartOf(s.resting, v)
    ensures !s.phase.Down? ==> forall o | o in unseen :: o in s.unsent
    ensures !s.phase.Down? ==> forall id | id in v :: id in s.resting || v[id] in s.unsent
  {
    hide Aligned, Synced, Reload, ValidTables;
    var now := ApplyAll(s.tables, s.results);
    if s.phase.Down? {
      PendingEnd(s.tables, s.results);
      AlignedLoad(now);
      v, unseen := map[], Reload(now);
    } else {
      assert s.queue + s.unsent == s.unsent;
      v, unseen := SyncedRest(now, s.resting, s.unsent);
    }
  }

  /// With no trade pending the rows can be read as well before as after the pending reports.
  lemma SameRows(t: Tables, u: Tables, ids: seq<nat>)
    requires OpenRows(t) == OpenRows(u) && Selection(t, ids)
    ensures Selection(u, ids) && forall id | id in ids :: id in t.orders && id in u.orders
    ensures RowsOf(u, ids) == RowsOf(t, ids)
  {
    forall id | id in ids
      ensures id in t.orders && id in u.orders && t.orders[id].order == u.orders[id].order
    {
      assert OpenRows(t)[id] == OpenRows(u)[id];
    }
  }

  lemma LoadingCoherent(s: State, ids: seq<nat>)
    requires Coherent(s) && MayLoad(s, ids)
    ensures Coherent(Loading(s, ids))
  {
    hide Pending, Aligned, Synced, PartOf, InTurn, Selection, OpenRows, ApplyAll, MaxOrderId;
    var now := ApplyAll(s.tables, s.results);
    var v, unseen := CoherentRest(s);
    ReportsKeepOrders(s.tables, s.results);
    SameRows(s.tables, now, ids);
    SyncedLoad(now, s.resting, v, unseen, ids);
    assert s.queue + RowsOf(s.tables, ids) == RowsOf(s.tables, ids);
  }

  lemma SendCoherent(s: State)
    requires Coherent(s) && s.unsent != []
    ensures Coherent(Do(s, Send))
  {
    hide Synced, Pending, MaxOrderId, ApplyAll;
    assert s.queue + [s.unsent[0]] + s.unsent[1..] == s.queue + s.unsent;
  }

  lemma SubmitCoherent(s: State, r: Request)
    requires Coherent(s) && s.phase.Generating? && s.unsent == [] && Representable(r.feeRate)
    ensures Coherent(Do(s, Submit(r)))
  {
    hide Synced, Pending, MaxOrderId;
    var t := s.tables;
    var o := NewOrder(s.phase.counter + 1, r);
    var u := ApplyAll(t, s.results);
    InsertedIsMax(t, r);
    assert AboveAll(u, o);
    PendingInsert(t, s.results, o);
    SyncedInsert(u, s.resting, s.taker, s.queue + s.unsent, o);
    assert s.queue + s.unsent + [o] == s.queue + [o];
  }

  lemma TakeCoherent(s: State)
    requires Coherent(s) && s.taker.None? && s.queue != []
    ensures Coherent(Do(s, Take))
  {
    hide Synced, Pending, MaxOrderId, ApplyAll;
    var waiting := s.queue + s.unsent;
    SyncedTake(ApplyAll(s.tables, s.results), s.resting, waiting);
    assert waiting[1..] == s.queue[1..] + s.unsent;
  }

  lemma AlignedValid(t: Tables, resting: Book, taker: Option<Order>, waiting: seq<Order>)
    requires Aligned(t, resting, taker, waiting)
    ensures ValidTables(t) && ValidBook(resting)
  {
  }

  /// A trade of the taker is the message that the tables call for, and keeps them in step.
  lemma TradeStep(t: Tables, resting: Book, o: Order, waiting: seq<Order>)
    requires Aligned(t, resting, Some(o), waiting) && CanTrade(resting, o)
    ensures ValidTables(t) && ValidBook(resting) && HasNext(t)
    ensures var x := NextTrade(resting, o);
            && NextMessage(t) == x.Report()
            && Aligned(Apply(t, x.Report()), Settle(resting, x.maker), Some(x.taker), waiting)
            && ValidTables(Apply(t, x.Report()))
  {
    hide Aligned, NextTrade, CanTrade, ValidTables, Settle, Apply, NextMessage, HasNext;
    AlignedValid(t, resting, Some(o), waiting);
    TakerIsNext(t, resting, o, waiting);
    AlignedTrade(t, resting, o, waiting);
    var x := NextTrade(resting, o);
    AlignedValid(Apply(t, x.Report()), Settle(resting, x.maker), Some(x.taker), waiting);
  }

  lemma TradeCoherent(s: State)
    requires Coherent(s) && TradeEnabled(s)
    ensures Coherent(Do(s, TradeOnce))
  {
    hide Pending, Aligned, Rebuilding, NextTrade, CanTrade, ValidTables, ValidBook, Settle, MaxOrderId,
         Apply, ApplyAll, HasNext, NextMessage, Repeats;
    var u, o, waiting := ApplyAll(s.tables, s.results), s.taker.value, s.queue + s.unsent;
    SyncedTrades(u, s.resting, o, waiting);
    TradeStep(u, s.resting, o, waiting);
    PendingSnoc(s.tables, s.results, NextTrade(s.resting, o).Report());
  }

  lemma FinishCoherent(s: State)
    requires Coherent(s) && s.taker.Some? && !TradeEnabled(s)
    ensures Coherent(Do(s, Finish))
  {
    hide Pending, CanTrade, ValidTables, Rest, MaxOrderId, Rebuilding;
    var u, o, waiting := ApplyAll(s.tables, s.results), s.taker.value, s.queue + s.unsent;
    if !Aligned(u, s.resting, s.taker, waiting) {
      EchoFinishCoherent(s);
    } else if o.filled == 0 {
      var m := UnmatchedOrder(o);
      AlignedReport(u, s.resting, o, waiting);
      if u.orders[o.orderId].status == INITIAL {
        TakerIsNext(u, s.resting, o, waiting);
      }
      PendingSnoc(s.tables, s.results, m);
      AlignedRest(Apply(u, m), s.resting, o, waiting);
    } else {
      FilledHasLeftInitial(u, o);
      AlignedRest(u, s.resting, o, waiting);
      assert s.results + [] == s.results;
    }
  }

  lemma EchoFinishCoherent(s: State)
    requires Coherent(s) && !s.phase.Down? && s.taker.Some?
    requires !Aligned(ApplyAll(s.tables, s.results), s.resting, s.taker, s.queue + s.unsent)
    ensures !TradeEnabled(s) && Coherent(Do(s, Finish))
    ensures forall o | o in s.queue + s.unsent && Echo(s.resting, o) :: Echo(Do(s, Finish).resting, o)
    ensures ApplyAll(s.tables, Do(s, Finish).results) == ApplyAll(s.tables, s.results)
  {
    hide Pending, CanTrade, Aligned, Rebuilding, Rest, MaxOrderId, Echo;
    var u, o, waiting := ApplyAll(s.tables, s.results), s.taker.value, s.queue + s.unsent;
    var d: nat, v: Book :| Rebuilding(u, s.resting, s.taker, waiting, d, v);
    EchoFinish(u, s.resting, o, waiting, d, v);
    EchoRests(u, s.resting, o, waiting, d, v);
    if o.filled == 0 {
      PendingEnd(s.tables, s.results);
      PendingSnoc(s.tables, s.results, UnmatchedOrder(o));
    } else {
      assert s.results + [] == s.results;
    }
  }

  /// Waiting orders that repeat a resting one still do when the taker has come to rest.
  lemma EchoRests(t: Tables, resting: Book, o: Order, waiting: seq<Order>, d: nat, v: Book)
    requires Rebuilding(t, resting, Some(o), waiting, d, v)
    ensures forall p | p in waiting && Echo(resting, p) :: Echo(Rest(resting, o), p)
  {
  }

  lemma FilledHasLeftInitial(t: Tables, o: Order)
    requires ValidTables(t) && Recorded(t, o) && o.filled != 0
    ensures t.orders[o.orderId].status != INITIAL
  {
  }

  lemma SameMax(t: Tables, u: Tables)
    requires u.orders.Keys == t.orders.Keys
    ensures MaxOrderId(u) == MaxOrderId(t)
  {
  }

  lemma PersistCoherent(s: State)
    requires Coherent(s) && s.results != []
    ensures Coherent(Do(s, Persist))
  {
    hide Synced, Repeats, HasNext, ValidTables, MaxOrderId;
    SameMax(s.tables, Apply(s.tables, s.results[0]));
  }

  /** Every step of every process keeps the pipeline invariant. */
  lemma StepCoherent(s: State, step: Step)
    requires Coherent(s) && GoodStep(step)
    ensures Coherent(Do(s, step))
  {
    hide Coherent, TradeEnabled, MayLoad;
    match step
    case Load(ids) => if s.phase.Down? && MayLoad(s, ids) { LoadingCoherent(s, ids); }
    case Send => if s.unsent != [] { SendCoherent(s); }
    case ReadMax => ReadMaxCoherent(s);
    case Submit(r) => if s.phase.Generating? && s.unsent == [] { SubmitCoherent(s, r); }
    case Take => if s.taker.None? && s.queue != [] { TakeCoherent(s); }
    case TradeOnce => if TradeEnabled(s) { TradeCoherent(s); }
    case Finish => if s.taker.Some? && !TradeEnabled(s) { FinishCoherent(s); }
    case Persist => if s.results != [] { PersistCoherent(s); }
    case Crash => CrashCoherent(s);
    case EngineCrash(kept) => EngineCrashCoherent(s, kept);
    case Restart(ids) => if !s.phase.Down? && MayLoad(s, ids) { LoadingCoherent(s, ids); }
  }

  lemma ReadMaxCoherent(s: State)
    requires Coherent(s)
    ensures Coherent(Do(s, ReadMax))
  {
    hide Synced, Pending, MaxOrderId, ApplyAll;
  }

  lemma CrashCoherent(s: State)
    requires Coherent(s)
    ensures Coherent(Do(s, Crash))
  {
    hide Synced, MaxOrderId, ValidTables, HasNext, Repeats, Apply, ApplyAll;
  }

  /// A prefix of the pending results is as good as all of them.
  lemma {:induction false} PendingFirst(t: Tables, ms: seq<Message>, n: nat)
    requires Pending(t, ms) && n <= |ms|
    ensures Pending(t, ms[..n])
    decreases n
  {
    hide ValidTables, HasNext, Apply, Repeats;
    if n > 0 {
      assert ms[..n][1..] == ms[1..][..n - 1];
      PendingFirst(Apply(t, ms[0]), ms[1..], n - 1);
    }
  }

  lemma EngineCrashCoherent(s: State, kept: nat)
    requires Coherent(s)
    ensures Coherent(Do(s, EngineCrash(kept)))
  {
    hide Synced, MaxOrderId, Pending, ApplyAll;
    if kept < |s.results| {
      PendingFirst(s.tables, s.results, kept);
    }
  }

  lemma {:induction false} ExecCoherent(s: State, steps: seq<Step>)
    requires Coherent(s) && GoodRun(steps)
    ensures Coherent(Exec(s, steps))
    decreases |steps|
  {
    hide Coherent, Do;
    if steps != [] {
      StepCoherent(s, steps[0]);
      ExecCoherent(Do(s, steps[0]), steps[1..]);
    }
  }

  /** The pipeline invariant holds in every state reachable from a cold start. */
  lemma PipelineInvariant(t: Tables, steps: seq<Step>)
    requires ValidTables(t) && GoodRun(steps)
    ensures Coherent(Exec(Start(t), steps))
  {
    ExecCoherent(Start(t), steps);
  }

  lemma AlignedRows(t: Tables, resting: Book, taker: Option<Order>, waiting: seq<Order>, id: nat)
    requires Aligned(t, resting, taker, waiting) && id in t.orders
    ensures var row := t.orders[id];
            if id in resting then row == Row(resting[id], StatusOf(resting[id]))
            else if taker.Some? && taker.value.orderId == id then
              row.order == taker.value && (row.order.filled > 0 ==> row.status == StatusOf(row.order))
            else row.order in waiting || row.status == FULLY_FILLED
  {
    assert ValidRow(id, t.orders[id]);
    if id in resting {
      assert Recorded(t, resting[id]);
    } else if taker.Some? && taker.value.orderId == id {
      assert Recorded(t, taker.value);
    }
  }

  lemma RebuildingRows(t: Tables, resting: Book, taker: Option<Order>, waiting: seq<Order>,
                       d: nat, v: Book, id: nat)
    requires Rebuilding(t, resting, taker, waiting, d, v) && id in t.orders
    ensures var row := t.orders[id];
            if id in resting then row == Row(resting[id], StatusOf(resting[id]))
            else if taker.Some? && taker.value.orderId == id then
              row.order == taker.value && (row.order.filled > 0 ==> row.status == StatusOf(row.order))
            else row.order in waiting || row.status == FULLY_FILLED
  {
    hide Aligned;
    AlignedRows(t, v, None, waiting[d..], id);
  }

  /** Read off the invariant: with the pending results applied, the row of a resting order shows
      its fill and is MATCHING or PARTIALLY_FILLED accordingly, the row of the current taker shows
      its fill and once it has traded the status of that fill, the row of a waiting order is as it
      waits, and every other row is completely filled and FULLY_FILLED. */
  lemma RowsMatchEngine(s: State, id: nat)
    requires Coherent(s) && !s.phase.Down?
    requires id in ApplyAll(s.tables, s.results).orders
    ensures var row := ApplyAll(s.tables, s.results).orders[id];
            if id in s.resting then
              && row.order == s.resting[id]
              && row.status == (if row.order.filled > 0 then PARTIALLY_FILLED else MATCHING)
            else if s.taker.Some? && s.taker.value.orderId == id then
              && row.order == s.taker.value
              && (row.order.filled > 0 ==>
                    row.status == if row.order.filled < row.order.quantity then PARTIALLY_FILLED
                                  else FULLY_FILLED)
            else
              || row.order in s.queue + s.unsent
              || (row.status == FULLY_FILLED && row.order.filled == row.order.quantity)
  {
    hide Aligned, Rebuilding, Pending, MaxOrderId, ApplyAll, Synced;
    var t, waiting := ApplyAll(s.tables, s.results), s.queue + s.unsent;
    SyncedRows(t, s.resting, s.taker, waiting, id);
    SyncedRecorded(t, s.resting, s.taker, waiting);
    PendingEnd(s.tables, s.results);
    StatusExactly(t, id);
  }

  lemma SyncedRows(t: Tables, resting: Book, taker: Option<Order>, waiting: seq<Order>, id: nat)
    requires Synced(t, resting, taker, waiting) && id in t.orders
    ensures var row := t.orders[id];
            if id in resting then row == Row(resting[id], StatusOf(resting[id]))
            else if taker.Some? && taker.value.orderId == id then
              row.order == taker.value && (row.order.filled > 0 ==> row.status == StatusOf(row.order))
            else row.order in waiting || row.status == FULLY_FILLED
  {
    hide Aligned, Rebuilding;
    if Aligned(t, resting, taker, waiting) {
      AlignedRows(t, resting, taker, waiting, id);
    } else {
      var d: nat, v: Book :| Rebuilding(t, resting, taker, waiting, d, v);
      RebuildingRows(t, resting, taker, waiting, d, v, id);
    }
  }

  lemma AlignedRecorded(t: Tables, resting: Book, taker: Option<Order>, waiting: seq<Order>)
    requires Aligned(t, resting, taker, waiting)
    ensures ValidBook(resting) && forall id | id in resting :: Recorded(t, resting[id])
    ensures taker.Some? ==> taker.value.WellFormed() && Recorded(t, taker.value)
    ensures forall o | o in waiting :: o.WellFormed() && Recorded(t, o)
  {
    hide InOrder, Covered;
    assert forall o | o in waiting :: Recorded(t, o) && o.Open();
    assert taker.Some? ==> ValidRow(taker.value.orderId, t.orders[taker.value.orderId]);
  }

  /// Whatever the engine holds or waits for is recorded under its id.
  lemma SyncedRecorded(t: Tables, resting: Book, taker: Option<Order>, waiting: seq<Order>)
    requires Synced(t, resting, taker, waiting)
    ensures ValidBook(resting) && forall id | id in resting :: Recorded(t, resting[id])
    ensures taker.Some? ==> taker.value.WellFormed() && Recorded(t, taker.value)
    ensures forall o | o in waiting :: o.WellFormed() && Recorded(t, o)
  {
    hide Aligned, Recorded;
    if Aligned(t, resting, taker, waiting) {
      AlignedRecorded(t, resting, taker, waiting);
    } else {
      var d: nat, v: Book :| Rebuilding(t, resting, taker, waiting, d, v);
      AlignedRecorded(t, v, None, waiting[d..]);
      forall i | 0 <= i < |waiting| ensures waiting[i].WellFormed() && Recorded(t, waiting[i]) {
        assert i >= d ==> waiting[i] == waiting[d..][i - d] && waiting[i] in waiting[d..];
      }
    }
  }

  /** What the engine's receive loop asks of its queue holds in every state: an order whose id
      is in the book already, or comes twice, has the same price and side each time. */
  lemma QueueListed(s: State)
    requires Coherent(s)
    ensures ValidBook(s.resting) && Listed(s.resting, s.queue)
    ensures s.taker.Some? ==> s.taker.value.WellFormed() && Compatible(s.resting, s.taker.value)
  {
    hide Synced, Pending, MaxOrderId, ApplyAll, Recorded;
    if !s.phase.Down? {
      var t, waiting := ApplyAll(s.tables, s.results), s.queue + s.unsent;
      SyncedRecorded(t, s.resting, s.taker, waiting);
      assert forall i | 0 <= i < |s.queue| :: s.queue[i] in waiting;
      RecordedAgree(t);
    }
  }

  lemma RecordedAgree(t: Tables)
    ensures forall o, p | Recorded(t, o) && Recorded(t, p) && o.orderId == p.orderId :: o == p
  {
  }

  /// A waiting order repeats a resting one, or its row is INITIAL.
  ghost predicate WaitingInitial(s: State) {
    var t := ApplyAll(s.tables, s.results);
    forall o | o in s.queue + s.unsent ::
      Echo(s.resting, o) || (o.orderId in t.orders && t.orders[o.orderId].status == INITIAL)
  }

  /// A message leaves the rows it does not name alone.
  lemma ApplyElsewhere(t: Tables, m: Message, id: nat)
    requires m.UnmatchedOrder? ==> m.order.orderId != id
    requires m.Trade? ==> m.taker.orderId != id && m.maker.orderId != id
    ensures id in Apply(t, m).orders <==> id in t.orders
    ensures id in t.orders ==> Apply(t, m).orders[id] == t.orders[id]
  {
  }

  lemma {:induction false} ApplyAllSnoc(t: Tables, ms: seq<Message>, m: Message)
    ensures ApplyAll(t, ms + [m]) == Apply(ApplyAll(t, ms), m)
  {
    ApplyAllConcat(t, ms, [m]);
    assert [m][1..] == [];
  }

  /// In an aligned engine no waiting order repeats a resting one.
  lemma WaitingNotEchoes(t: Tables, resting: Book, taker: Option<Order>, waiting: seq<Order>)
    requires Aligned(t, resting, taker, waiting)
    ensures forall p | p in waiting :: !Echo(resting, p)
  {
  }

  lemma TradeWaiting(s: State)
    requires Coherent(s) && TradeEnabled(s) && WaitingInitial(s)
    ensures WaitingInitial(Do(s, TradeOnce))
  {
    hide Pending, Apply, ApplyAll, NextTrade, CanTrade, Settle, Rebuilding, Echo;
    var t, o, waiting := ApplyAll(s.tables, s.results), s.taker.value, s.queue + s.unsent;
    SyncedTrades(t, s.resting, o, waiting);
    WaitingNotEchoes(t, s.resting, s.taker, waiting);
    TradeTouches(s.resting, o);
    var x := NextTrade(s.resting, o);
    ApplyAllSnoc(s.tables, s.results, x.Report());
    forall p | p in waiting ensures Apply(t, x.Report()).orders[p.orderId] == t.orders[p.orderId] {
      assert o.orderId < p.orderId && x.maker.orderId < p.orderId;
      ApplyElsewhere(t, x.Report(), p.orderId);
    }
  }

  lemma FinishWaiting(s: State)
    requires Coherent(s) && s.taker.Some? && !TradeEnabled(s) && WaitingInitial(s)
    ensures WaitingInitial(Do(s, Finish))
  {
    hide Pending, Apply, ApplyAll, CanTrade, Rest, Rebuilding, Echo;
    var t, o, waiting := ApplyAll(s.tables, s.results), s.taker.value, s.queue + s.unsent;
    if !Aligned(t, s.resting, s.taker, waiting) {
      EchoFinishCoherent(s);
    } else {
      WaitingNotEchoes(t, s.resting, s.taker, waiting);
      if o.filled == 0 {
        var m := UnmatchedOrder(o);
        ApplyAllSnoc(s.tables, s.results, m);
        forall p | p in waiting ensures Apply(t, m).orders[p.orderId] == t.orders[p.orderId] {
          ApplyElsewhere(t, m, p.orderId);
        }
      } else {
        assert s.results + [] == s.results;
      }
    }
  }

  lemma LoadingWaiting(s: State, ids: seq<nat>)
    requires Coherent(s) && !s.phase.Down? && MayLoad(s, ids) && WaitingInitial(s)
    ensures WaitingInitial(Loading(s, ids))
  {
    hide Pending, ApplyAll, Aligned, Rebuilding, InTurn, MaxOrderId;
    var now := ApplyAll(s.tables, s.results);
    var v, unseen := CoherentRest(s);
    ReportsKeepOrders(s.tables, s.results);
    var rows := RowsOf(s.tables, ids);
    assert s.queue + rows == rows && s.queue + s.unsent == s.unsent;
    CoherentPending(s);
    forall o | o in rows ensures Echo(s.resting, o) || o in s.unsent {
      OpenRowOwner(now, v, unseen, o);
      RowsOfOpen(s.tables, ids);
      assert o.orderId in OpenRows(s.tables) && OpenRows(s.tables)[o.orderId] == o;
    }
  }

  lemma CoherentPending(s: State)
    requires Coherent(s)
    ensures Pending(s.tables, s.results) && ValidTables(s.tables)
  {
  }

  lemma SubmitWaiting(s: State, r: Request)
    requires Coherent(s) && s.phase.Generating? && s.unsent == [] && WaitingInitial(s)
    ensures WaitingInitial(Do(s, Submit(r)))
  {
    hide Synced, Pending, MaxOrderId, ApplyAll, Echo, StoredRate;
    var t := s.tables;
    var o := NewOrder(s.phase.counter + 1, r);
    InsertedIsMax(t, r);
    PendingInsert(t, s.results, o);
    var u := Do(s, Submit(r));
    assert u.queue + u.unsent == s.queue + [o] && s.queue + s.unsent == s.queue;
    forall p | p in s.queue + [o]
      ensures Echo(u.resting, p) ||
              (p.orderId in InsertRow(ApplyAll(t, s.results), o).orders &&
               InsertRow(ApplyAll(t, s.results), o).orders[p.orderId].status == INITIAL)
    {
      assert p == o || p in s.queue + s.unsent;
    }
  }

  lemma StepWaiting(s: State, step: Step)
    requires Coherent(s) && WaitingInitial(s) && !step.Crash? && !step.EngineCrash?
    requires s.phase.Down? ==> OpenRows(s.tables) == map[] && s.results == []
    ensures WaitingInitial(Do(s, step))
  {
    hide Coherent, WaitingInitial, TradeEnabled, MayLoad, Loading, OpenRows, MaxOrderId;
    match step
    case Load(ids) => if s.phase.Down? && MayLoad(s, ids) { EmptyLoadWaits(s, ids); }
    case Send => if s.unsent != [] { SendWaits(s); }
    case ReadMax => SameWaits(s, Do(s, step));
    case Submit(r) => if s.phase.Generating? && s.unsent == [] { SubmitWaiting(s, r); }
    case Take => if s.taker.None? && s.queue != [] { TakeWaits(s); }
    case TradeOnce => if TradeEnabled(s) { TradeWaiting(s); }
    case Finish => if s.taker.Some? && !TradeEnabled(s) { FinishWaiting(s); }
    case Persist => SameWaits(s, Do(s, step));
    case Restart(ids) => if !s.phase.Down? && MayLoad(s, ids) { LoadingWaiting(s, ids); }
    case Crash =>
    case EngineCrash(_) =>
  }

  lemma StepStaysEmpty(s: State, step: Step)
    requires Coherent(s) && !step.Crash? && !step.EngineCrash?
    requires s.phase.Down? ==> OpenRows(s.tables) == map[] && s.results == []
    ensures Do(s, step).phase.Down? ==> OpenRows(Do(s, step).tables) == map[] && Do(s, step).results == []
  {
    hide Synced, Pending, OpenRows, MaxOrderId, MayLoad, CanTrade, ValidBook;
  }

  lemma SameWaits(s: State, u: State)
    requires WaitingInitial(s) && u.queue == s.queue && u.unsent == s.unsent && u.resting == s.resting
    requires ApplyAll(u.tables, u.results) == ApplyAll(s.tables, s.results)
    ensures WaitingInitial(u)
  {
  }

  lemma FirstSelected(t: Tables, ids: seq<nat>)
    requires Selection(t, ids) && ids != []
    ensures ids[0] in OpenRows(t)
  {
    assert ids[0] in ids;
  }

  lemma EmptyLoadWaits(s: State, ids: seq<nat>)
    requires Coherent(s) && s.phase.Down? && OpenRows(s.tables) == map[] && MayLoad(s, ids)
    ensures WaitingInitial(Loading(s, ids))
  {
    if ids != [] {
      FirstSelected(s.tables, ids);
      assert false;
    }
  }

  lemma SendWaits(s: State)
    requires WaitingInitial(s) && s.unsent != []
    ensures WaitingInitial(Do(s, Send))
  {
    assert s.queue + [s.unsent[0]] + s.unsent[1..] == s.queue + s.unsent;
  }

  lemma TakeWaits(s: State)
    requires WaitingInitial(s) && s.taker.None? && s.queue != []
    ensures WaitingInitial(Do(s, Take))
  {
    assert s.queue + s.unsent == [s.queue[0]] + (s.queue[1..] + s.unsent);
    forall o | o in s.queue[1..] + s.unsent ensures o in s.queue + s.unsent {}
  }

  lemma {:induction false} ExecWaiting(s: State, steps: seq<Step>)
    requires Coherent(s) && WaitingInitial(s) && GoodRun(steps)
    requires forall i | 0 <= i < |steps| :: !steps[i].Crash? && !steps[i].EngineCrash?
    requires s.phase.Down? ==> OpenRows(s.tables) == map[] && s.results == []
    ensures WaitingInitial(Exec(s, steps))
    decreases |steps|
  {
    hide Coherent, WaitingInitial, Do;
    if steps != [] {
      StepCoherent(s, steps[0]);
      StepWaiting(s, steps[0]);
      StepStaysEmpty(s, steps[0]);
      ExecWaiting(Do(s, steps[0]), steps[1..]);
    }
  }

  /** In a run without a crash that starts with no open rows, every order the engine has not
      taken yet is still an INITIAL row, whatever results are pending; only a restarted
      generator repeats orders that rest already. */
  lemma UnprocessedAreInitial(t: Tables, steps: seq<Step>)
    requires ValidTables(t) && OpenRows(t) == map[] && GoodRun(steps)
    requires forall i | 0 <= i < |steps| :: !steps[i].Crash? && !steps[i].EngineCrash?
    ensures WaitingInitial(Exec(Start(t), steps))
  {
    ExecWaiting(Start(t), steps);
  }
}
