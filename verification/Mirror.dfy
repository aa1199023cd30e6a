/** Buyers and sellers are treated alike: exchanging the sides and negating every price turns
    the sell path (reverse iteration) into the buy path. With it, what was shown of buy takers
    is carried over to sell takers. */
module Mirror {
  import opened Fees
  import opened Orders
  import opened Matching
  import opened BookInvariants
  import opened SortedFill

  function Flip(s: Side): Side { if s.BUY? then SELL else BUY }

  function MirrorOrder(o: Order): Order {
    o.(price := -o.price, side := Flip(o.side))
  }

  function MirrorRecord(r: TradeRecord): TradeRecord {
    r.(takerSide := Flip(r.takerSide), price := -r.price, takerFee := -r.takerFee, makerFee := -r.makerFee)
  }

  function MirrorMessage(m: Message): Message {
    match m
    case UnmatchedOrder(o) => UnmatchedOrder(MirrorOrder(o))
    case Trade(t, k, r) => Trade(MirrorOrder(t), MirrorOrder(k), MirrorRecord(r))
  }

  function MirrorBook(b: Book): Book {
    map id | id in b :: MirrorOrder(b[id])
  }

  function MirrorMessages(ms: seq<Message>): seq<Message> {
    seq(|ms|, i requires 0 <= i < |ms| => MirrorMessage(ms[i]))
  }

  function MirrorOrders(os: seq<Order>): seq<Order> {
    seq(|os|, i requires 0 <= i < |os| => MirrorOrder(os[i]))
  }

  lemma MirrorExecute(t: Order, m: Order)
    requires t.Open() && m.Open()
    ensures var x := Execute(t, m);
            Execute(MirrorOrder(t), MirrorOrder(m)) ==
            Execution(MirrorOrder(x.taker), MirrorOrder(x.maker), MirrorRecord(x.record))
  {
    var q := Min(t.Remaining(), m.Remaining());
    FeeOdd(t.feeRate, q, m.price);
    FeeOdd(m.feeRate, q, m.price);
  }

  lemma MirrorCandidates(b: Book, t: Order)
    requires ValidBook(b)
    ensures ValidBook(MirrorBook(b))
    ensures Candidates(MirrorBook(b), MirrorOrder(t)) == Candidates(b, t)
    ensures CanTrade(b, t) ==>
              IsBest(MirrorBook(b), Candidates(b, t), !t.Buys(), Best(b, Candidates(b, t), t.Buys()))
  {
  }

  lemma MirrorSettle(b: Book, m: Order)
    ensures Settle(MirrorBook(b), MirrorOrder(m)) == MirrorBook(Settle(b, m))
  {
  }

  lemma MirrorNextTrade(b: Book, t: Order)
    requires ValidBook(b)
    ensures ValidBook(MirrorBook(b))
    ensures CanTrade(MirrorBook(b), MirrorOrder(t)) <==> CanTrade(b, t)
    ensures CanTrade(b, t) ==>
              var x := NextTrade(b, t);
              && NextTrade(MirrorBook(b), MirrorOrder(t)) ==
                 Execution(MirrorOrder(x.taker), MirrorOrder(x.maker), MirrorRecord(x.record))
              && Settle(MirrorBook(b), MirrorOrder(x.maker)) == MirrorBook(Settle(b, x.maker))
  {
    hide Execute, IsBest, Settle;
    var ids := Candidates(b, t);
    MirrorCandidates(b, t);
    if CanTrade(b, t) {
      var k := Best(b, ids, t.Buys());
      BestUnique(MirrorBook(b), ids, !t.Buys(), k);
      MirrorExecute(t, b[k]);
      MirrorSettle(b, NextTrade(b, t).maker);
    }
  }

  /** Matching commutes with the mirror: same makers in the same order, same quantities, and
      the mirror image of the book left. */
  lemma {:induction false} MatchMirror(b: Book, t: Order)
    requires ValidBook(b) && t.WellFormed()
    ensures ValidBook(MirrorBook(b))
    ensures var r := Match(b, t);
            Match(MirrorBook(b), MirrorOrder(t)) ==
            MatchResult(MirrorOrder(r.taker), MirrorBook(r.book), MirrorMessages(r.messages))
    decreases |b|, t.Remaining()
  {
    hide Candidates, Execute, Settle;
    MirrorNextTrade(b, t);
    if CanTrade(b, t) {
      var x := NextTrade(b, t);
      SettleShrinks(b, t);
      MatchMirror(Settle(b, x.maker), x.taker);
      var rest := Match(Settle(b, x.maker), x.taker).messages;
      assert MirrorMessages([x.Report()] + rest) ==
             [MirrorMessage(x.Report())] + MirrorMessages(rest);
    }
  }

  lemma {:induction false} FillMirror(t: Order, ms: seq<Order>)
    requires t.WellFormed() && AllOpen(ms)
    ensures AllOpen(MirrorOrders(ms))
    ensures Fill(MirrorOrder(t), MirrorOrders(ms)).messages == MirrorMessages(Fill(t, ms).messages)
    decreases |ms|
  {
    hide Execute;
    if ms == [] || !t.Open() || !Accepts(t, ms[0]) {
    } else {
      var x := Execute(t, ms[0]);
      MirrorExecute(t, ms[0]);
      assert MirrorOrders(ms)[1..] == MirrorOrders(ms[1..]);
      if !x.maker.Open() {
        FillMirror(x.taker, ms[1..]);
        var rest := Fill(x.taker, ms[1..]).messages;
        assert MirrorMessages([x.Report()] + rest) ==
               [MirrorMessage(x.Report())] + MirrorMessages(rest);
      }
    }
  }

  lemma {:induction false} PaidMirror(ms: seq<Message>)
    ensures Paid(MirrorMessages(ms)) == -Paid(ms)
    ensures Volume(MirrorMessages(ms)) == Volume(ms)
  {
    if ms != [] {
      PaidMirror(ms[1..]);
      assert MirrorMessages(ms)[1..] == MirrorMessages(ms[1..]);
      if ms[0].Trade? {
        var q, p := ms[0].record.quantity, ms[0].record.price;
        assert q * -p == -(q * p);
      }
    }
  }

  lemma {:induction false} CostMirror(ms: seq<Order>, alloc: map<nat, int>)
    requires Feasible(ms, alloc)
    ensures Feasible(MirrorOrders(ms), alloc)
    ensures Cost(MirrorOrders(ms), alloc) == -Cost(ms, alloc)
    ensures Allocated(MirrorOrders(ms), alloc) == Allocated(ms, alloc)
  {
    if ms != [] {
      CostMirror(ms[1..], alloc);
      assert MirrorOrders(ms)[1..] == MirrorOrders(ms[1..]);
      var a, p := alloc[ms[0].orderId], ms[0].price;
      assert a * -p == -(a * p);
    }
  }

  /** Greedy optimality: for any book and taker, and any way of taking the traded quantity
      from the makers of the other side, a buy taker pays no more and a sell taker receives no
      less than under that allocation. */
  lemma GreedyOptimal(b: Book, t: Order, alloc: map<nat, int>)
    requires ValidBook(b) && t.WellFormed()
    requires Feasible(MakerList(b, t.Buys()), alloc)
    requires Allocated(MakerList(b, t.Buys()), alloc) == Volume(Match(b, t).messages)
    ensures var paid, cost := Paid(Match(b, t).messages), Cost(MakerList(b, t.Buys()), alloc);
            if t.Buys() then paid <= cost else paid >= cost
  {
    hide Match, Fill;
    var ms := MakerList(b, t.Buys());
    MatchIsFill(b, t);
    FlattenSorted(b, SideIds(b, !t.Buys()), t.Buys());
    if t.Buys() {
      FillOptimalBuy(t, ms, alloc);
    } else {
      FillMirror(t, ms);
      PaidMirror(Fill(t, ms).messages);
      CostMirror(ms, alloc);
      assert Prioritized(true, MirrorOrders(ms)) by {
        assert forall i, j | 0 <= i < j < |ms| :: Ahead(false, ms[i], ms[j]);
      }
      FillOptimalBuy(MirrorOrder(t), MirrorOrders(ms), alloc);
    }
  }

  /** The traded quantity is the smaller of what the taker wants and what the other side
      offers at prices it accepts. */
  lemma TradedVolume(b: Book, t: Order)
    requires ValidBook(b) && t.WellFormed()
    ensures Volume(Match(b, t).messages) == Min(t.Remaining(), Depth(t, MakerList(b, t.Buys())))
  {
    MatchIsFill(b, t);
    FlattenSorted(b, SideIds(b, !t.Buys()), t.Buys());
    FillVolume(t, MakerList(b, t.Buys()));
  }
}
