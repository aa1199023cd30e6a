/** The matching engine as the source writes it: nested iterator loops that erase from the
    maps they walk, proved to compute Matching.Process. */
module Engine {
  import opened Orders
  import opened OrderedKeys
  import opened Matching
  import opened PriceLevels
  import opened BookInvariants

  /// No level of the ladder is better for the taker than price p.
  ghost predicate NoneBetter(l: Ladder, takerBuys: bool, p: int) {
    forall q | q in l :: if takerBuys then p <= q else q <= p
  }

  /** The order at the front of the best acceptable level is the maker served next. */
  lemma FrontIsBest(b: Book, t: Order, p: int, k: nat)
    requires ValidBook(b) && t.Open()
    requires k in AtPrice(b, !t.Buys(), p) && Accepts(t, b[k])
    requires IsLeast(AtPrice(b, !t.Buys(), p).Keys, k)
    requires NoneBetter(LadderOf(b, !t.Buys()), t.Buys(), p)
    ensures CanTrade(b, t) && NextTrade(b, t) == Execute(t, b[k])
  {
    var ids := Candidates(b, t);
    assert k in ids;
    forall j | j in ids && j != k ensures Ahead(t.Buys(), b[k], b[j]) {
      assert b[j].price in LadderOf(b, !t.Buys());
      if b[j].price == p {
        assert j in AtPrice(b, !t.Buys(), p);
      }
    }
    BestUnique(b, ids, t.Buys(), k);
  }

  /** When the best price of the other side is not acceptable, or that side is empty, no
      trade is left. */
  lemma NothingLeft(b: Book, t: Order, l: Ladder)
    requires l == LadderOf(b, !t.Buys())
    requires forall q | q in l :: if t.Buys() then t.price < q else q < t.price
    ensures !CanTrade(b, t)
  {
    forall id | id in b ensures !Crosses(t, b[id]) {
      if b[id].Buys() != t.Buys() {
        assert b[id].price in l;
      }
    }
    assert Candidates(b, t) == {};
  }

  /// r with the messages that were sent before it.
  function Sent(messages: seq<Message>, r: MatchResult): MatchResult {
    r.(messages := messages + r.messages)
  }

  /** The state of matching order against book b0, after messages have been sent and with
      taker still to be matched against b. */
  ghost predicate Progress(b0: Book, order: Order, b: Book, taker: Order, messages: seq<Message>) {
    && ValidBook(b0) && order.WellFormed()
    && ValidBook(b) && taker.WellFormed()
    && taker == order.(filled := taker.filled)
    && Match(b0, order) == Sent(messages, Match(b, taker))
  }

  lemma ProgressStep(b0: Book, order: Order, b: Book, taker: Order, messages: seq<Message>)
    requires Progress(b0, order, b, taker, messages)
    requires CanTrade(b, taker)
    ensures var x := NextTrade(b, taker);
            Progress(b0, order, Settle(b, x.maker), x.taker, messages + [x.Report()])
  {
    var x := NextTrade(b, taker);
    SettleShrinks(b, taker);
    var rest := Match(Settle(b, x.maker), x.taker).messages;
    assert messages + ([x.Report()] + rest) == (messages + [x.Report()]) + rest;
  }

  lemma ProgressDone(b0: Book, order: Order, b: Book, taker: Order, messages: seq<Message>)
    requires Progress(b0, order, b, taker, messages)
    requires !CanTrade(b, taker)
    ensures Match(b0, order) == MatchResult(taker, b, messages)
  {
    assert messages + [] == messages;
  }

  /** The inner loop at price p: the level p is the best one left, the taker accepts it, and
      it is kept in the opposite ladder even when it becomes empty. */
  ghost predicate AtLevel(b0: Book, order: Order, b: Book, taker: Order, messages: seq<Message>,
                          opposite: Ladder, own: Ladder, p: int) {
    && Progress(b0, order, b, taker, messages)
    && opposite == Opened(b, !taker.Buys(), p)
    && p in opposite
    && own == LadderOf(b, taker.Buys())
    && NoneBetter(opposite, taker.Buys(), p)
    && (if taker.Buys() then p <= taker.price else p >= taker.price)
  }

  /** One round of the inner loop: the front order trades and is written back or erased. */
  lemma LevelStep(b0: Book, order: Order, b: Book, taker: Order, messages: seq<Message>,
                  opposite: Ladder, own: Ladder, p: int, k: nat)
    requires AtLevel(b0, order, b, taker, messages, opposite, own, p)
    requires taker.Open() && k in opposite[p] && IsLeast(opposite[p].Keys, k)
    ensures opposite[p][k].Open() && k in b && b[k] == opposite[p][k]
    ensures var x := Execute(taker, opposite[p][k]);
            var c := Settle(b, x.maker);
            && x.maker.orderId == k
            && AtLevel(b0, order, c, x.taker, messages + [x.Report()],
                       opposite[p := Settle(opposite[p], x.maker)], own, p)
            && x.taker.Remaining() < taker.Remaining()
            && (x.taker.Open() ==>
                 Settle(opposite[p], x.maker) == opposite[p] - {k} &&
                 First((opposite[p] - {k}).Keys) == Next(opposite[p].Keys, k))
  {
    hide Match, Candidates, Execute, Settle;
    var level := opposite[p];
    assert level == AtPrice(b, !taker.Buys(), p);
    NoneBetterLadder(b, !taker.Buys(), taker.Buys(), p);
    FrontIsBest(b, taker, p, k);
    var x := Execute(taker, level[k]);
    ProgressStep(b0, order, b, taker, messages);
    LevelShrinks(level, taker, k);
    LevelWritten(b, taker, opposite, own, p, k);
  }

  lemma NoneBetterLadder(b: Book, buys: bool, takerBuys: bool, p: int)
    requires NoneBetter(Opened(b, buys, p), takerBuys, p)
    ensures NoneBetter(LadderOf(b, buys), takerBuys, p)
  {
    var o, l := Opened(b, buys, p), LadderOf(b, buys);
    forall q | q in l
      ensures if takerBuys then p <= q else q <= p
    {
      assert q in o;
    }
  }

  /// While the taker is open after a trade, the level goes on without its front order.
  lemma LevelShrinks(level: Level, taker: Order, k: nat)
    requires taker.Open() && k in level && IsLeast(level.Keys, k)
    requires level[k].Open() && level[k].orderId == k
    ensures var x := Execute(taker, level[k]);
            x.taker.Open() ==>
              Settle(level, x.maker) == level - {k} &&
              First((level - {k}).Keys) == Next(level.Keys, k)
  {
    assert (level - {k}).Keys == Above(level.Keys, k);
  }

  /// The ladders after a trade with the order k of level p.
  lemma LevelWritten(b: Book, taker: Order, opposite: Ladder, own: Ladder, p: int, k: nat)
    requires ValidBook(b) && taker.Open()
    requires opposite == Opened(b, !taker.Buys(), p) && own == LadderOf(b, taker.Buys())
    requires NoneBetter(opposite, taker.Buys(), p)
    requires k in opposite[p]
    ensures k in b && b[k] == opposite[p][k]
    ensures var x := Execute(taker, b[k]);
            var c := Settle(b, x.maker);
            var written := opposite[p := Settle(opposite[p], x.maker)];
            && written == Opened(c, !taker.Buys(), p)
            && own == LadderOf(c, taker.Buys())
            && NoneBetter(written, taker.Buys(), p)
  {
    hide LadderOf, Settle;
    var x := Execute(taker, b[k]);
    SettleLevel(b, x.maker);
    var written := opposite[p := Settle(opposite[p], x.maker)];
    assert written.Keys == opposite.Keys;
  }

  /// Entering the level of the best price.
  lemma EnterLevel(b: Book, buys: bool, p: int)
    requires p in LadderOf(b, buys)
    ensures LadderOf(b, buys) == Opened(b, buys, p)
    ensures LadderOf(b, buys)[p] != map[]
  {
    LevelExists(b, buys, p);
  }

  /// Leaving a level: an empty one is erased, and the iteration goes on with what is left.
  lemma LeaveLevel(b: Book, takerBuys: bool, opposite: Ladder, p: int)
    requires opposite == Opened(b, !takerBuys, p)
    requires NoneBetter(opposite, takerBuys, p)
    ensures p in opposite
    ensures LadderOf(b, !takerBuys) == if opposite[p] == map[] then opposite - {p} else opposite
    ensures takerBuys ==> First((opposite - {p}).Keys) == Next(opposite.Keys, p)
    ensures !takerBuys ==> Below(opposite.Keys, p) == (opposite - {p}).Keys
  {
    CloseLevel(b, !takerBuys, p);
    if takerBuys {
      assert (opposite - {p}).Keys == Above(opposite.Keys, p);
    }
  }

  /** Writing the maker back through its reference and then erasing it when it is full. */
  lemma WriteBack(l: Ladder, p: int, maker: Order)
    requires p in l && maker.orderId in l[p]
    ensures var level: Level := l[p][maker.orderId := maker];
            var written: Ladder := l[p := level];
            && level.Keys == l[p].Keys
            && l[p := Settle(l[p], maker)] ==
               (if maker.filled >= maker.quantity then written[p := level - {maker.orderId}]
                else written)
  {
    var level: Level := l[p][maker.orderId := maker];
    assert level - {maker.orderId} == l[p] - {maker.orderId};
  }

  /// The report of one order, without saying how it is matched.
  lemma ProcessReports(b: Book, o: Order)
    requires ValidBook(b) && o.WellFormed()
    ensures var sent := Process(b, o).messages;
            if o.filled == 0 && forall m | m in sent :: !m.Trade? then sent == [UnmatchedOrder(o)]
            else forall m | m in sent :: m.Trade?
  {
    hide Process;
    ProcessExactly(b, o);
    var sent := Process(b, o).messages;
    if sent == [UnmatchedOrder(o)] {
      assert sent[0] in sent;
    }
    if o.filled == 0 {
      NoneSent(b, o);
    }
  }

  lemma NoneSent(b: Book, o: Order)
    requires ValidBook(b) && o.WellFormed() && o.filled == 0
    ensures Process(b, o).messages != []
  {
  }

  /// Matching leaves prices and sides alone.
  lemma MatchKeepsCompatible(b: Book, t: Order, o: Order)
    requires ValidBook(b) && t.WellFormed() && Compatible(b, o)
    ensures Compatible(Match(b, t).book, o)
  {
    MatchTouches(b, t);
  }

  /// Orders of a queue with the same id, or one with the id of a resting order, have the same
  /// price and side.
  ghost predicate Listed(b: Book, queue: seq<Order>) {
    && (forall i | 0 <= i < |queue| :: queue[i].WellFormed() && Compatible(b, queue[i]))
    && (forall i, j | 0 <= i < j < |queue| && queue[i].orderId == queue[j].orderId ::
          queue[i].price == queue[j].price && queue[i].side == queue[j].side)
  }

  lemma ListedWellFormed(b: Book, queue: seq<Order>)
    requires Listed(b, queue)
    ensures forall i | 0 <= i < |queue| :: queue[i].WellFormed()
  {
  }

  lemma ListedHead(b: Book, queue: seq<Order>)
    requires Listed(b, queue) && queue != []
    ensures queue[0].WellFormed() && Compatible(b, queue[0])
  {
  }

  lemma ListedTail(b: Book, queue: seq<Order>)
    requires ValidBook(b) && Listed(b, queue) && queue != []
    ensures queue[0].WellFormed() && Listed(Process(b, queue[0]).book, queue[1..])
  {
    hide Match;
    var o, rest := queue[0], queue[1..];
    var c := Process(b, o).book;
    forall i | 0 <= i < |rest| ensures rest[i].WellFormed() && Compatible(c, rest[i]) {
      assert rest[i] == queue[i + 1];
      MatchKeepsCompatible(b, o, rest[i]);
    }
  }

  lemma Moved(before: seq<Message>, sent: seq<Message>, now: seq<Message>, later: seq<Message>)
    ensures before + sent + now == before + (sent + now)
    ensures sent + (now + later) == (sent + now) + later
  {
  }

  class MatchingEngine {
    var buyOrders: Ladder
    var sellOrders: Ladder
    /// The messages pushed to the result queue so far.
    var results: seq<Message>
    /// The resting orders of both sides by id.
    ghost var resting: Book

    ghost predicate Valid()
      reads this
    {
      && ValidBook(resting)
      && buyOrders == LadderOf(resting, true)
      && sellOrders == LadderOf(resting, false)
    }

    constructor ()
      ensures Valid() && resting == map[] && results == []
    {
      buyOrders, sellOrders, results, resting := map[], map[], [], map[];
    }

    method GenerateTradeMessage(taker: Order, maker: Order, trade: TradeRecord)
      modifies this`results
      ensures results == old(results) + [Trade(taker, maker, trade)]
    {
      results := results + [Trade(taker, maker, trade)];
    }

    method GenerateUnmatchedOrderMessage(order: Order)
      modifies this`results
      ensures results == old(results) + [UnmatchedOrder(order)]
    {
      results := results + [UnmatchedOrder(order)];
    }

    /** The two orders, passed by reference in the source, are returned with their new fill. */
    method ProcessTrade(order: Order, oppositeOrder: Order) returns (taker: Order, maker: Order)
      requires order.Open() && oppositeOrder.Open()
      modifies this`results
      ensures var x := Execute(order, oppositeOrder);
              taker == x.taker && maker == x.maker && results == old(results) + [x.Report()]
    {
      var tradeQuantity := Min(order.quantity - order.filled, oppositeOrder.quantity - oppositeOrder.filled);
      var tradePrice := oppositeOrder.price;
      taker := order.(filled := order.filled + tradeQuantity);
      maker := oppositeOrder.(filled := oppositeOrder.filled + tradeQuantity);
      var trade := CreateTradeRecord(taker, maker, tradeQuantity, tradePrice);
      GenerateTradeMessage(taker, maker, trade);
    }

    /** Lowest sell price first, ascending ids inside a level. */
    method MatchBuyOrders(buyOrder: Order) returns (taker: Order)
      requires Valid() && buyOrder.WellFormed() && buyOrder.Buys()
      modifies this`sellOrders, this`results, this`resting
      ensures Valid()
      ensures var r := Match(old(resting), buyOrder);
              taker == r.taker && resting == r.book && results == old(results) + r.messages
    {
      hide Match, LadderOf, Opened, AtPrice, Candidates, Settle, Execute;
      taker := buyOrder;
      ghost var b0, sent: seq<Message> := resting, [];
      var it := First(sellOrders.Keys);
      while it.Some? && taker.quantity > taker.filled
        invariant Progress(b0, buyOrder, resting, taker, sent)
        invariant Valid() && results == old(results) + sent
        invariant taker.Open() ==> it == First(sellOrders.Keys)
        decreases taker.Remaining()
      {
        var sellPrice := it.value;
        if taker.price < sellPrice {
          break;
        }
        EnterLevel(resting, false, sellPrice);
        var orderIt := First(sellOrders[sellPrice].Keys);
        ghost var remaining := taker.Remaining();
        while orderIt.Some? && taker.quantity > taker.filled
          invariant AtLevel(b0, buyOrder, resting, taker, sent, sellOrders, buyOrders, sellPrice)
          invariant results == old(results) + sent
          invariant taker.Open() ==> orderIt == First(sellOrders[sellPrice].Keys)
          invariant taker.Remaining() <= remaining
          invariant orderIt.Some? || taker.Remaining() < remaining
          decreases taker.Remaining()
        {
          var id: nat := orderIt.value;
          LevelStep(b0, buyOrder, resting, taker, sent, sellOrders, buyOrders, sellPrice, id);
          ghost var x := Execute(taker, sellOrders[sellPrice][id]);
          WriteBack(sellOrders, sellPrice, x.maker);
          var sellOrder := sellOrders[sellPrice][id];
          taker, sellOrder := ProcessTrade(taker, sellOrder);
          var ordersAtPrice: Level := sellOrders[sellPrice][id := sellOrder];
          sellOrders := sellOrders[sellPrice := ordersAtPrice];
          orderIt := Next(ordersAtPrice.Keys, id);
          if sellOrder.filled >= sellOrder.quantity {
            sellOrders := sellOrders[sellPrice := ordersAtPrice - {id}];
          }
          Moved(old(results), sent, [x.Report()], []);
          sent := sent + [x.Report()];
          resting := Settle(resting, sellOrder);
        }
        LeaveLevel(resting, true, sellOrders, sellPrice);
        it := Next(sellOrders.Keys, sellPrice);
        if sellOrders[sellPrice] == map[] {
          sellOrders := sellOrders - {sellPrice};
        }
      }
      if taker.Open() {
        NothingLeft(resting, taker, sellOrders);
      }
      ProgressDone(b0, buyOrder, resting, taker, sent);
    }

    /** Highest buy price first, through a reverse iterator; ascending ids inside a level. */
    method MatchSellOrders(sellOrder: Order) returns (taker: Order)
      requires Valid() && sellOrder.WellFormed() && !sellOrder.Buys()
      modifies this`buyOrders, this`results, this`resting
      ensures Valid()
      ensures var r := Match(old(resting), sellOrder);
              taker == r.taker && resting == r.book && results == old(results) + r.messages
    {
      hide Match, LadderOf, Opened, AtPrice, Candidates, Settle, Execute;
      taker := sellOrder;
      ghost var b0, sent: seq<Message> := resting, [];
      var it := RBEGIN;
      while !AtRend(buyOrders.Keys, it) && taker.quantity > taker.filled
        invariant Progress(b0, sellOrder, resting, taker, sent)
        invariant Valid() && results == old(results) + sent
        invariant taker.Open() ==> Reach(buyOrders.Keys, it) == buyOrders.Keys
        decreases taker.Remaining()
      {
        var buyPrice := Deref(buyOrders.Keys, it);
        if taker.price > buyPrice {
          break;
        }
        EnterLevel(resting, true, buyPrice);
        var orderIt := First(buyOrders[buyPrice].Keys);
        ghost var remaining := taker.Remaining();
        while orderIt.Some? && taker.quantity > taker.filled
          invariant AtLevel(b0, sellOrder, resting, taker, sent, buyOrders, sellOrders, buyPrice)
          invariant results == old(results) + sent
          invariant taker.Open() ==> orderIt == First(buyOrders[buyPrice].Keys)
          invariant taker.Remaining() <= remaining
          invariant orderIt.Some? || taker.Remaining() < remaining
          invariant !AtRend(buyOrders.Keys, it) && Deref(buyOrders.Keys, it) == buyPrice
          decreases taker.Remaining()
        {
          var id: nat := orderIt.value;
          LevelStep(b0, sellOrder, resting, taker, sent, buyOrders, sellOrders, buyPrice, id);
          ghost var x := Execute(taker, buyOrders[buyPrice][id]);
          WriteBack(buyOrders, buyPrice, x.maker);
          ghost var keys := buyOrders.Keys;
          var buyOrder := buyOrders[buyPrice][id];
          taker, buyOrder := ProcessTrade(taker, buyOrder);
          var ordersAtPrice: Level := buyOrders[buyPrice][id := buyOrder];
          buyOrders := buyOrders[buyPrice := ordersAtPrice];
          orderIt := Next(ordersAtPrice.Keys, id);
          if buyOrder.filled >= buyOrder.quantity {
            buyOrders := buyOrders[buyPrice := ordersAtPrice - {id}];
          }
          assert buyOrders.Keys == keys;
          Moved(old(results), sent, [x.Report()], []);
          sent := sent + [x.Report()];
          resting := Settle(resting, buyOrder);
        }
        LeaveLevel(resting, false, buyOrders, buyPrice);
        ReverseErase(buyOrders.Keys, it);
        if buyOrders[buyPrice] == map[] {
          var erased := RNext(buyOrders.Keys, it).base.value;
          it := ReverseIterator(Next(buyOrders.Keys, erased));
          buyOrders := buyOrders - {erased};
        } else {
          it := RNext(buyOrders.Keys, it);
        }
      }
      if taker.Open() {
        NothingLeft(resting, taker, buyOrders);
      }
      ProgressDone(b0, sellOrder, resting, taker, sent);
    }

    /** Adds an order to the book of its side; `buys` names the book the source passes. */
    method AddOrderToBook(order: Order, buys: bool)
      requires Valid() && order.Open() && buys == order.Buys() && Compatible(resting, order)
      modifies this`buyOrders, this`sellOrders, this`resting
      ensures Valid() && resting == old(resting)[order.orderId := order]
    {
      AddLadder(resting, order);
      if buys {
        buyOrders := AddToLadder(buyOrders, order);
      } else {
        sellOrders := AddToLadder(sellOrders, order);
      }
      resting := resting[order.orderId := order];
    }

    method MatchOrders(order: Order, isBuyOrder: bool)
      requires Valid() && order.WellFormed() && isBuyOrder == order.Buys()
      requires Compatible(resting, order)
      modifies this
      ensures Valid()
      ensures var r := Process(old(resting), order);
              resting == r.book && results == old(results) + r.messages
      ensures var sent := results[|old(results)|..];
              if order.filled == 0 && forall m | m in sent :: !m.Trade? then sent == [UnmatchedOrder(order)]
              else forall m | m in sent :: m.Trade?
    {
      hide LadderOf, Match;
      MatchKeepsCompatible(resting, order, order);
      ProcessReports(resting, order);
      var taker: Order;
      if isBuyOrder {
        taker := MatchBuyOrders(order);
      } else {
        taker := MatchSellOrders(order);
      }
      ghost var traded := Match(old(resting), order).messages;
      assert results == old(results) + traded;
      if taker.filled == 0 {
        GenerateUnmatchedOrderMessage(taker);
        AddOrderToBook(taker, isBuyOrder);
        assert old(results) + traded + [UnmatchedOrder(taker)] ==
               old(results) + (traded + [UnmatchedOrder(taker)]);
      } else {
        assert traded + [] == traded;
        if taker.quantity > taker.filled {
          AddOrderToBook(taker, isBuyOrder);
        }
      }
    }

    /** One order off the queue: a new one, or one that is sent again. */
    method ProcessOrder(order: Order)
      requires Valid() && order.WellFormed() && Compatible(resting, order)
      modifies this
      ensures Valid()
      ensures var r := Process(old(resting), order);
              resting == r.book && results == old(results) + r.messages
    {
      if order.side == BUY {
        MatchOrders(order, true);
      } else {
        MatchOrders(order, false);
      }
    }

    /** The receive loop over a queue of orders. An order may come again, or be resting
        already, as long as its price and side stay the same. */
    method Run(queue: seq<Order>)
      requires Valid() && Listed(resting, queue)
      modifies this
      ensures Valid()
      ensures var r := ProcessAll(old(resting), queue);
              resting == r.book && results == old(results) + r.messages
    {
      hide LadderOf, Process, Listed, Compatible;
      ghost var b0, sent: seq<Message> := resting, [];
      var n := 0;
      ListedWellFormed(resting, queue);
      assert queue[0..] == queue;
      while n < |queue|
        invariant 0 <= n <= |queue|
        invariant Valid()
        invariant Listed(resting, queue[n..])
        invariant results == old(results) + sent
        invariant ProcessAll(b0, queue).book == ProcessAll(resting, queue[n..]).book
        invariant ProcessAll(b0, queue).messages == sent + ProcessAll(resting, queue[n..]).messages
      {
        assert queue[n..][1..] == queue[n + 1..];
        ListedHead(resting, queue[n..]);
        ListedTail(resting, queue[n..]);
        ghost var m := Process(resting, queue[n]).messages;
        ghost var later := ProcessAll(Process(resting, queue[n]).book, queue[n + 1..]).messages;
        Moved(old(results), sent, m, later);
        ProcessOrder(queue[n]);
        sent := sent + m;
        n := n + 1;
      }
      assert sent + [] == sent;
    }
  }
}
