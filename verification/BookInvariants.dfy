/** What every order keeps: an uncrossed book, conservation of quantity on both sides, and
    a bound on the trades of one order. */
module BookInvariants {
  import opened Orders
  import opened Matching
  import opened Sums

  /** A trade record that agrees with the two orders it is sent with; they are on opposite sides
      and the price, the maker's, is within the taker's limit. */
  predicate Genuine(m: Message) {
    m.Trade? ==>
      && m.record == CreateTradeRecord(m.taker, m.maker, m.record.quantity, m.record.price)
      && m.record.price == m.maker.price
      && 0 < m.record.quantity <= m.taker.filled && m.record.quantity <= m.maker.filled
      && (if m.taker.side == BUY then m.maker.side != BUY && m.record.price <= m.taker.price
          else m.maker.side == BUY && m.record.price >= m.taker.price)
  }

  /// c is b with some orders gone and some filled further.
  ghost predicate Depleted(b: Book, c: Book) {
    forall id | id in c ::
      id in b && c[id] == b[id].(filled := c[id].filled) && b[id].filled <= c[id].filled
  }

  /** One trade touches only the maker, and the taker accepts the maker's price. */
  lemma TradeTouches(b: Book, t: Order)
    requires ValidBook(b) && CanTrade(b, t)
    ensures var x := NextTrade(b, t);
            && x.maker.orderId in b && Crosses(t, b[x.maker.orderId])
            && x == Execute(t, b[x.maker.orderId])
            && Depleted(b, Settle(b, x.maker))
            && Genuine(x.Report())
            && (forall id | id in b && id != x.maker.orderId ::
                  id in Settle(b, x.maker) && Settle(b, x.maker)[id] == b[id])
  {
    SettleShrinks(b, t);
  }

  /** Matching touches only orders on the opposite side that the taker accepts. */
  lemma {:induction false} MatchTouches(b: Book, t: Order)
    requires ValidBook(b) && t.WellFormed()
    ensures var r := Match(b, t);
            && Depleted(b, r.book)
            && (forall id | id in b && !Crosses(t, b[id]) :: id in r.book && r.book[id] == b[id])
            && (forall i | 0 <= i < |r.messages| :: r.messages[i].Trade? && Genuine(r.messages[i]))
    decreases t.Remaining()
  {
    hide Candidates, Execute, CreateTradeRecord, Genuine, Settle, Crosses;
    if CanTrade(b, t) {
      var x := NextTrade(b, t);
      MatchUnfold(b, t);
      TradeTouches(b, t);
      SameCrosses(t, x.taker);
      MatchTouches(Settle(b, x.maker), x.taker);
    }
  }

  lemma SameCrosses(t: Order, u: Order)
    requires t.price == u.price && t.side == u.side
    ensures forall m :: Crosses(t, m) == Crosses(u, m)
  {
  }

  lemma DepletedUncrossed(b: Book, c: Book)
    requires Uncrossed(b) && Depleted(b, c)
    ensures Uncrossed(c)
  {
  }

  /// A taker that can trade no more can rest without crossing the book.
  lemma RestUncrossed(b: Book, t: Order)
    requires Uncrossed(b)
    requires t.Open() ==> !CanTrade(b, t)
    ensures Uncrossed(Rest(b, t))
  {
    if t.Open() {
      forall id | id in b ensures !Crosses(t, b[id]) {
        assert id in Candidates(b, t) <==> Crosses(t, b[id]);
      }
    }
  }

  /** The book stays uncrossed. */
  lemma ProcessUncrossed(b: Book, o: Order)
    requires ValidBook(b) && Uncrossed(b) && o.WellFormed()
    ensures Uncrossed(Process(b, o).book)
  {
    MatchTouches(b, o);
    DepletedUncrossed(b, Match(b, o).book);
    RestUncrossed(Match(b, o).book, Match(b, o).taker);
  }

  /** The trades of one order are at most the makers it removes, and one more. */
  lemma {:induction false} TradeBound(b: Book, t: Order)
    requires ValidBook(b) && t.WellFormed()
    ensures var r := Match(b, t);
            |b| - |r.book| <= |r.messages| <= |b| - |r.book| + 1
    ensures var r := Match(b, t);
            r.taker.Open() ==> |r.messages| == |b| - |r.book|
    decreases |b|, t.Remaining()
  {
    if CanTrade(b, t) {
      var x := NextTrade(b, t);
      SettleShrinks(b, t);
      if x.maker.Open() {
        assert |Settle(b, x.maker).Keys| == |b.Keys|;
      } else {
        TradeBound(Settle(b, x.maker), x.taker);
      }
    }
  }

  // ---- conservation ----

  function RemainingBySide(b: Book, buys: bool): map<nat, int> {
    map id | id in b && b[id].Buys() == buys :: b[id].Remaining()
  }

  /// The quantity still to trade on one side of the book.
  ghost function SideRemaining(b: Book, buys: bool): int {
    Total(RemainingBySide(b, buys))
  }

  function Submitted(os: seq<Order>, buys: bool): int {
    if os == [] then 0
    else (if os[0].Buys() == buys then os[0].Remaining() else 0) + Submitted(os[1..], buys)
  }

  function Quantity(m: Message): int {
    if m.Trade? then m.record.quantity else 0
  }

  /// The quantity traded in a log of messages.
  function Volume(ms: seq<Message>): int {
    if ms == [] then 0 else Quantity(ms[0]) + Volume(ms[1..])
  }

  lemma {:induction false} VolumeConcat(a: seq<Message>, b: seq<Message>)
    ensures Volume(a + b) == Volume(a) + Volume(b)
  {
    if a == [] {
      assert a + b == b;
    } else {
      assert (a + b)[1..] == a[1..] + b;
      VolumeConcat(a[1..], b);
    }
  }

  /// Settling a maker changes its own side by its fill, the other side not at all.
  lemma SettleRemaining(b: Book, maker: Order, q: int)
    requires ValidBook(b) && maker.orderId in b && maker.WellFormed()
    requires maker == b[maker.orderId].(filled := b[maker.orderId].filled + q)
    ensures SideRemaining(Settle(b, maker), maker.Buys()) == SideRemaining(b, maker.Buys()) - q
    ensures SideRemaining(Settle(b, maker), !maker.Buys()) == SideRemaining(b, !maker.Buys())
  {
    var c, k, side := Settle(b, maker), maker.orderId, maker.Buys();
    var m := RemainingBySide(b, side);
    assert RemainingBySide(c, !side) == RemainingBySide(b, !side);
    if maker.Open() {
      assert RemainingBySide(c, side) == m[k := maker.Remaining()];
      TotalUpdate(m, k, maker.Remaining());
    } else {
      assert RemainingBySide(c, side) == m - {k};
      TotalSplit(m, k);
    }
  }

  /** What a taker trades leaves both sides of the book and the taker in equal measure. */
  lemma {:induction false} MatchConserves(b: Book, t: Order)
    requires ValidBook(b) && t.WellFormed()
    ensures var r := Match(b, t);
            && t.Remaining() == r.taker.Remaining() + Volume(r.messages)
            && SideRemaining(b, !t.Buys()) == SideRemaining(r.book, !t.Buys()) + Volume(r.messages)
            && SideRemaining(b, t.Buys()) == SideRemaining(r.book, t.Buys())
    decreases |b|, t.Remaining()
  {
    if CanTrade(b, t) {
      var x := NextTrade(b, t);
      SettleShrinks(b, t);
      TradeTouches(b, t);
      SettleRemaining(b, x.maker, x.record.quantity);
      MatchConserves(Settle(b, x.maker), x.taker);
    }
  }

  lemma RestRemaining(b: Book, t: Order)
    requires t.orderId !in b && t.WellFormed()
    ensures SideRemaining(Rest(b, t), t.Buys()) == SideRemaining(b, t.Buys()) + t.Remaining()
    ensures SideRemaining(Rest(b, t), !t.Buys()) == SideRemaining(b, !t.Buys())
  {
    if t.Open() {
      var m := RemainingBySide(b, t.Buys());
      assert RemainingBySide(Rest(b, t), t.Buys()) == m[t.orderId := t.Remaining()];
      assert RemainingBySide(Rest(b, t), !t.Buys()) == RemainingBySide(b, !t.Buys());
      TotalUpdate(m, t.orderId, t.Remaining());
    }
  }

  lemma ProcessConserves(b: Book, o: Order, buys: bool)
    requires ValidBook(b) && o.WellFormed() && o.orderId !in b
    ensures var r := Process(b, o);
            SideRemaining(b, buys) + Submitted([o], buys) ==
            SideRemaining(r.book, buys) + Volume(r.messages)
  {
    var m := Match(b, o);
    MatchConserves(b, o);
    RestRemaining(m.book, m.taker);
    VolumeConcat(m.messages, RestMessages(m.taker));
  }

  /** What one order sends and where it ends. An order without a fill that finds no order of the
      other side at an acceptable price sends its one report; any other order sends trades only.
      It gains what it trades, and rests with that fill exactly when it is not complete; the other
      orders of its own side stay as they are. */
  lemma ProcessExactly(b: Book, o: Order)
    requires ValidBook(b) && o.WellFormed()
    ensures var r := Process(b, o);
            var finds := exists id :: id in b &&
                           if o.side == BUY then b[id].side != BUY && b[id].price <= o.price
                           else b[id].side == BUY && b[id].price >= o.price;
            && (if o.filled == 0 && !finds then r.messages == [UnmatchedOrder(o)]
                else forall m | m in r.messages :: m.Trade?)
            && (forall id | id in b && id != o.orderId && b[id].Buys() == o.Buys() ::
                  id in r.book && r.book[id] == b[id])
            && var end := o.(filled := o.filled + Volume(r.messages));
               && end.filled <= o.quantity
               && (end.filled < o.quantity ==> o.orderId in r.book && r.book[o.orderId] == end)
               && (end.filled == o.quantity && o.orderId !in b ==> o.orderId !in r.book)
  {
    hide Match, Candidates, Genuine, Depleted, Crosses, SideRemaining;
    var m := Match(b, o);
    MatchConserves(b, o);
    MatchTouches(b, o);
    VolumeConcat(m.messages, RestMessages(m.taker));
    CanTradeExactly(b, o);
    assert forall id | id in b && b[id].Buys() == o.Buys() :: !Crosses(o, b[id]) by { OwnSide(b, o); }
    if CanTrade(b, o) {
      MatchUnfold(b, o);
    } else {
      MatchStops(b, o);
      assert [] + RestMessages(o) == RestMessages(o);
    }
  }

  lemma OwnSide(b: Book, o: Order)
    ensures forall id | id in b && b[id].Buys() == o.Buys() :: !Crosses(o, b[id])
  {
  }

  lemma CanTradeExactly(b: Book, o: Order)
    ensures CanTrade(b, o) <==>
            && o.Open()
            && exists id :: id in b &&
                 if o.side == BUY then b[id].side != BUY && b[id].price <= o.price
                 else b[id].side == BUY && b[id].price >= o.price
  {
    forall id ensures id in Candidates(b, o) <==>
                      id in b &&
                      if o.side == BUY then b[id].side != BUY && b[id].price <= o.price
                      else b[id].side == BUY && b[id].price >= o.price
    {}
    if CanTrade(b, o) {
      var id :| id in Candidates(b, o);
    }
  }

  /** Over any run and on either side, what was resting or submitted is what rests at the end
      plus what was traded: nothing is lost or duplicated, and both sides trade the same. */
  lemma {:induction false} RunConserves(b: Book, os: seq<Order>, buys: bool)
    requires ValidBook(b)
    requires forall i | 0 <= i < |os| :: os[i].WellFormed() && os[i].orderId !in b
    requires forall i, j | 0 <= i < j < |os| :: os[i].orderId != os[j].orderId
    ensures var r := ProcessAll(b, os);
            SideRemaining(b, buys) + Submitted(os, buys) ==
            SideRemaining(r.book, buys) + Volume(r.messages)
    decreases |os|
  {
    if os != [] {
      var first := Process(b, os[0]);
      ProcessConserves(b, os[0], buys);
      RunConserves(first.book, os[1..], buys);
      VolumeConcat(first.messages, ProcessAll(first.book, os[1..]).messages);
    }
  }

  /** Only orders without a fill are reported. */
  lemma {:induction false} RunReports(b: Book, os: seq<Order>)
    requires ValidBook(b) && forall i | 0 <= i < |os| :: os[i].WellFormed()
    ensures forall m | m in ProcessAll(b, os).messages && m.UnmatchedOrder? :: m.order in os && m.order.filled == 0
    decreases |os|
  {
    if os != [] {
      var first := Process(b, os[0]);
      ProcessExactly(b, os[0]);
      RunReports(first.book, os[1..]);
      var later := ProcessAll(first.book, os[1..]).messages;
      forall m | m in first.messages + later && m.UnmatchedOrder? ensures m.order in os && m.order.filled == 0 {
        assert m in first.messages || m in later;
      }
    }
  }

  /** Every reachable book between orders is uncrossed. */
  lemma {:induction false} RunUncrossed(b: Book, os: seq<Order>)
    requires ValidBook(b) && Uncrossed(b)
    requires forall i | 0 <= i < |os| :: os[i].WellFormed()
    ensures Uncrossed(ProcessAll(b, os).book)
    decreases |os|
  {
    if os != [] {
      ProcessUncrossed(b, os[0]);
      RunUncrossed(Process(b, os[0]).book, os[1..]);
    }
  }
}
