/** A simple account of matching: walk the other side of the book as one list sorted by
    priority and fill in order. The engine is shown to do exactly this, and this is shown to
    be greedy, optimal for the taker, and symmetric between buyers and sellers. */
module SortedFill {
  import opened Orders
  import opened Matching
  import opened BookInvariants

  datatype FillResult = FillResult(taker: Order, makers: seq<Order>, messages: seq<Message>)

  ghost predicate AllOpen(ms: seq<Order>) {
    forall i | 0 <= i < |ms| :: ms[i].Open()
  }

  ghost predicate Prioritized(takerBuys: bool, ms: seq<Order>) {
    forall i, j | 0 <= i < j < |ms| :: Ahead(takerBuys, ms[i], ms[j])
  }

  function Fill(t: Order, ms: seq<Order>): (r: FillResult)
    requires t.WellFormed() && AllOpen(ms)
    ensures r.taker.WellFormed() && AllOpen(r.makers)
    decreases |ms|
  {
    if ms == [] || !t.Open() || !Accepts(t, ms[0]) then FillResult(t, ms, [])
    else
      var x := Execute(t, ms[0]);
      if x.maker.Open() then FillResult(x.taker, [x.maker] + ms[1..], [x.Report()])
      else
        var r := Fill(x.taker, ms[1..]);
        r.(messages := [x.Report()] + r.messages)
  }

  // ---- the list of makers ----

  function SideIds(b: Book, buys: bool): set<nat> {
    set id | id in b && b[id].Buys() == buys
  }

  ghost function Flatten(b: Book, ids: set<nat>, takerBuys: bool): (ms: seq<Order>)
    requires ValidBook(b) && ids <= b.Keys
    ensures AllOpen(ms)
    ensures |ms| == |ids|
    decreases |ids|
  {
    if ids == {} then [] else
      var k := Best(b, ids, takerBuys);
      [b[k]] + Flatten(b, ids - {k}, takerBuys)
  }

  /// The makers a taker of the given side meets, in priority order.
  ghost function MakerList(b: Book, takerBuys: bool): (ms: seq<Order>)
    requires ValidBook(b)
    ensures AllOpen(ms)
  {
    Flatten(b, SideIds(b, !takerBuys), takerBuys)
  }

  /** The list holds exactly the orders of ids, in priority order. */
  lemma {:induction false} FlattenContents(b: Book, ids: set<nat>, takerBuys: bool)
    requires ValidBook(b) && ids <= b.Keys
    ensures forall o :: o in Flatten(b, ids, takerBuys) <==> o.orderId in ids && o == b[o.orderId]
    decreases |ids|
  {
    if ids != {} {
      var k := Best(b, ids, takerBuys);
      FlattenContents(b, ids - {k}, takerBuys);
    }
  }

  lemma {:induction false} FlattenSorted(b: Book, ids: set<nat>, takerBuys: bool)
    requires ValidBook(b) && ids <= b.Keys
    ensures Prioritized(takerBuys, Flatten(b, ids, takerBuys))
    decreases |ids|
  {
    if ids != {} {
      var k := Best(b, ids, takerBuys);
      var rest := Flatten(b, ids - {k}, takerBuys);
      FlattenSorted(b, ids - {k}, takerBuys);
      FlattenContents(b, ids - {k}, takerBuys);
      forall i | 0 <= i < |rest| ensures Ahead(takerBuys, b[k], rest[i]) {
        assert rest[i] in rest;
      }
    }
  }

  lemma {:induction false} FlattenFrame(b: Book, c: Book, ids: set<nat>, takerBuys: bool)
    requires ValidBook(b) && ValidBook(c) && ids <= b.Keys && ids <= c.Keys
    requires forall id | id in ids :: b[id] == c[id]
    ensures Flatten(b, ids, takerBuys) == Flatten(c, ids, takerBuys)
    decreases |ids|
  {
    if ids != {} {
      var k := Best(b, ids, takerBuys);
      BestUnique(c, ids, takerBuys, k);
      FlattenFrame(b, c, ids - {k}, takerBuys);
    }
  }

  /** What the front of the maker list says about the next trade. */
  lemma FrontOfList(b: Book, t: Order)
    requires ValidBook(b) && t.Open()
    ensures var ms := MakerList(b, t.Buys());
            && (CanTrade(b, t) <==> ms != [] && Accepts(t, ms[0]))
            && (CanTrade(b, t) ==> NextTrade(b, t) == Execute(t, ms[0]))
  {
    var ids := SideIds(b, !t.Buys());
    var ms := MakerList(b, t.Buys());
    if ids == {} {
      assert Candidates(b, t) <= ids;
    } else {
      var k := Best(b, ids, t.Buys());
      assert ms[0] == b[k];
      if Accepts(t, b[k]) {
        assert k in Candidates(b, t);
        assert IsBest(b, Candidates(b, t), t.Buys(), k);
        BestUnique(b, Candidates(b, t), t.Buys(), k);
      } else {
        forall id | id in b ensures !Crosses(t, b[id]) {
          assert b[id].Buys() != t.Buys() ==> id in ids;
        }
        assert Candidates(b, t) == {};
      }
    }
  }

  /** The maker list after a trade with its front. */
  lemma ListAfterTrade(b: Book, t: Order)
    requires ValidBook(b) && CanTrade(b, t)
    ensures var x := NextTrade(b, t);
            var ms := MakerList(b, t.Buys());
            var c := Settle(b, x.maker);
            && ValidBook(c)
            && ms != [] && x == Execute(t, ms[0]) && Accepts(t, ms[0])
            && MakerList(c, t.Buys()) == if x.maker.Open() then [x.maker] + ms[1..] else ms[1..]
  {
    hide Execute, Candidates;
    FrontOfList(b, t);
    SettleShrinks(b, t);
    TradeTouches(b, t);
    var x := NextTrade(b, t);
    var buys := t.Buys();
    assert b[Best(b, SideIds(b, !buys), buys)] == MakerList(b, buys)[0];
    ListAfterSettle(b, x.maker, buys);
  }

  /// The list after the front maker has been settled.
  lemma ListAfterSettle(b: Book, maker: Order, buys: bool)
    requires ValidBook(b) && SideIds(b, !buys) != {}
    requires var k := Best(b, SideIds(b, !buys), buys);
             maker.orderId == k && maker == b[k].(filled := maker.filled)
    requires maker.WellFormed()
    requires ValidBook(Settle(b, maker))
    ensures MakerList(Settle(b, maker), buys) ==
            (if maker.Open() then [maker] else []) + MakerList(b, buys)[1..]
  {
    hide Flatten;
    var c, k, ids := Settle(b, maker), maker.orderId, SideIds(b, !buys);
    FlattenFrame(b, c, ids - {k}, buys);
    FlattenCons(b, ids, buys);
    if maker.Open() {
      assert SideIds(c, !buys) == ids;
      assert IsBest(c, ids, buys, k);
      BestUnique(c, ids, buys, k);
      FlattenCons(c, ids, buys);
    } else {
      assert SideIds(c, !buys) == ids - {k};
    }
  }

  lemma FlattenCons(b: Book, ids: set<nat>, buys: bool)
    requires ValidBook(b) && ids <= b.Keys && ids != {}
    ensures var k := Best(b, ids, buys);
            && Flatten(b, ids, buys) == [b[k]] + Flatten(b, ids - {k}, buys)
            && Flatten(b, ids, buys)[1..] == Flatten(b, ids - {k}, buys)
  {
  }

  /** Refinement: matching on the book is the fold over the sorted list of makers, with the
      same trades and the same makers left. */
  lemma {:induction false} MatchIsFill(b: Book, t: Order)
    requires ValidBook(b) && t.WellFormed()
    ensures var r := Match(b, t);
            var f := Fill(t, MakerList(b, t.Buys()));
            && r.taker == f.taker
            && r.messages == f.messages
            && MakerList(r.book, t.Buys()) == f.makers
    decreases |b|, t.Remaining()
  {
    if CanTrade(b, t) {
      var x := NextTrade(b, t);
      SettleShrinks(b, t);
      ListAfterTrade(b, t);
      MatchIsFill(Settle(b, x.maker), x.taker);
      if x.maker.Open() {
        assert Fill(x.taker, MakerList(Settle(b, x.maker), t.Buys())).messages == [];
      }
    } else if t.Open() {
      FrontOfList(b, t);
    }
  }

  lemma SameLimit(t: Order, u: Order, ms: seq<Order>)
    requires t.price == u.price && t.side == u.side
    ensures forall i | 0 <= i < |ms| :: Accepts(t, ms[i]) == Accepts(u, ms[i])
  {
  }

  /// Message m reports a trade with the given maker, at its price.
  predicate Touches(t: Order, m: Message, maker: Order) {
    && m.Trade?
    && m.record.makerId == maker.orderId
    && m.record.price == maker.price
    && 0 < m.record.quantity <= maker.Remaining()
    && Accepts(t, maker)
  }

  /// The last maker touched, when it is left partially filled.
  function LeftPartial(ms: seq<Order>, messages: seq<Message>): seq<Order> {
    var n := |messages|;
    if 0 < n <= |ms| && messages[n - 1].Trade? &&
       messages[n - 1].record.quantity < ms[n - 1].Remaining()
    then [ms[n - 1].(filled := ms[n - 1].filled + messages[n - 1].record.quantity)]
    else []
  }

  lemma {:induction false} TouchedPrefix(t: Order, ms: seq<Order>)
    requires t.WellFormed() && AllOpen(ms)
    ensures var messages := Fill(t, ms).messages;
            && |messages| <= |ms|
            && (forall i | 0 <= i < |messages| :: Touches(t, messages[i], ms[i]))
            && (forall i | 0 <= i < |messages| - 1 :: messages[i].record.quantity == ms[i].Remaining())
    decreases |ms|
  {
    hide Execute, Accepts;
    if ms == [] || !t.Open() || !Accepts(t, ms[0]) {
    } else {
      var x := Execute(t, ms[0]);
      assert Touches(t, x.Report(), ms[0]);
      if !x.maker.Open() {
        var rest := ms[1..];
        SameLimit(t, x.taker, rest);
        TouchedPrefix(x.taker, rest);
        var messages := Fill(x.taker, rest).messages;
        var all := [x.Report()] + messages;
        assert Fill(t, ms).messages == all;
        forall i | 0 <= i < |all| ensures Touches(t, all[i], ms[i]) {
          assert i > 0 ==> Touches(x.taker, messages[i - 1], rest[i - 1]);
        }
        forall i | 0 <= i < |all| - 1 ensures all[i].record.quantity == ms[i].Remaining() {
          assert i > 0 ==> all[i] == messages[i - 1] && ms[i] == rest[i - 1];
        }
      }
    }
  }

  lemma LeftShift(ms: seq<Order>, m: Message, messages: seq<Message>)
    requires 0 < |ms| && |messages| < |ms|
    requires messages == [] ==> m.Trade? && m.record.quantity == ms[0].Remaining()
    ensures LeftPartial(ms, [m] + messages) == LeftPartial(ms[1..], messages)
    ensures ms[|[m] + messages|..] == ms[1..][|messages|..]
  {
  }

  lemma {:induction false} LeftOver(t: Order, ms: seq<Order>)
    requires t.WellFormed() && AllOpen(ms)
    ensures var r := Fill(t, ms);
            var n := |r.messages|;
            && n <= |ms|
            && r.makers == LeftPartial(ms, r.messages) + ms[n..]
            && (r.taker.Open() ==>
                  LeftPartial(ms, r.messages) == [] && (n == |ms| || !Accepts(t, ms[n])))
    decreases |ms|
  {
    hide Execute, Accepts;
    if ms == [] || !t.Open() || !Accepts(t, ms[0]) {
    } else {
      var x := Execute(t, ms[0]);
      if !x.maker.Open() {
        var rest := ms[1..];
        SameLimit(t, x.taker, rest);
        LeftOver(x.taker, rest);
        TouchedPrefix(x.taker, rest);
        var messages := Fill(x.taker, rest).messages;
        LeftShift(ms, x.Report(), messages);
      }
    }
  }

  /** Footprint of one order: the makers touched are a prefix of the priority order; all but
      the last are completed; the last may be left partially filled; every other maker is
      unchanged; each trade is at the maker's own price, within the taker's limit, and prices
      only get worse for the taker; and the walk stops only when the taker is complete or the
      next maker is not acceptable. */
  lemma Footprint(t: Order, ms: seq<Order>)
    requires t.WellFormed() && AllOpen(ms)
    ensures var r := Fill(t, ms);
            var n := |r.messages|;
            && n <= |ms|
            && (forall i | 0 <= i < n :: Touches(t, r.messages[i], ms[i]))
            && (forall i | 0 <= i < n - 1 :: r.messages[i].record.quantity == ms[i].Remaining())
            && r.makers == LeftPartial(ms, r.messages) + ms[n..]
            && (r.taker.Open() ==>
                  LeftPartial(ms, r.messages) == [] && (n == |ms| || !Accepts(t, ms[n])))
    ensures Prioritized(t.Buys(), ms) ==>
              var messages := Fill(t, ms).messages;
              forall i, j | 0 <= i < j < |messages| ::
                if t.Buys() then messages[i].record.price <= messages[j].record.price
                else messages[i].record.price >= messages[j].record.price
  {
    hide Execute, Accepts, Fill;
    TouchedPrefix(t, ms);
    LeftOver(t, ms);
    if Prioritized(t.Buys(), ms) {
      var messages := Fill(t, ms).messages;
      forall i, j | 0 <= i < j < |messages|
        ensures if t.Buys() then messages[i].record.price <= messages[j].record.price
                else messages[i].record.price >= messages[j].record.price
      {
        assert Touches(t, messages[i], ms[i]) && Touches(t, messages[j], ms[j]);
        assert Ahead(t.Buys(), ms[i], ms[j]);
      }
    }
  }

  // ---- volume and cost ----

  function Depth(t: Order, ms: seq<Order>): int {
    if ms == [] then 0
    else (if Accepts(t, ms[0]) then ms[0].Remaining() else 0) + Depth(t, ms[1..])
  }

  lemma {:induction false} DepthNonNegative(t: Order, ms: seq<Order>)
    requires AllOpen(ms)
    ensures Depth(t, ms) >= 0
    ensures (forall i | 0 <= i < |ms| :: !Accepts(t, ms[i])) ==> Depth(t, ms) == 0
  {
    if ms != [] {
      DepthNonNegative(t, ms[1..]);
    }
  }

  lemma {:induction false} DepthFrame(t: Order, u: Order, ms: seq<Order>)
    requires t.price == u.price && t.side == u.side
    ensures Depth(t, ms) == Depth(u, ms)
  {
    if ms != [] {
      DepthFrame(t, u, ms[1..]);
    }
  }

  /** The traded quantity is the smaller of what the taker wants and what is on offer at
      acceptable prices. */
  lemma {:induction false} FillVolume(t: Order, ms: seq<Order>)
    requires t.WellFormed() && AllOpen(ms) && Prioritized(t.Buys(), ms)
    ensures Volume(Fill(t, ms).messages) == Min(t.Remaining(), Depth(t, ms))
    decreases |ms|
  {
    DepthNonNegative(t, ms);
    if ms == [] || !t.Open() {
    } else if !Accepts(t, ms[0]) {
      assert forall i | 0 < i < |ms| :: Ahead(t.Buys(), ms[0], ms[i]);
    } else {
      var x := Execute(t, ms[0]);
      DepthNonNegative(t, ms[1..]);
      if x.maker.Open() {
        assert Volume([x.Report()]) == x.record.quantity + Volume([]);
      } else {
        DepthFrame(t, x.taker, ms[1..]);
        FillVolume(x.taker, ms[1..]);
      }
    }
  }

  function Paid(ms: seq<Message>): int {
    if ms == [] then 0
    else (if ms[0].Trade? then ms[0].record.quantity * ms[0].record.price else 0) + Paid(ms[1..])
  }

  /// An allocation takes from every maker no more than it has left.
  ghost predicate Feasible(ms: seq<Order>, alloc: map<nat, int>) {
    forall i | 0 <= i < |ms| ::
      ms[i].orderId in alloc && 0 <= alloc[ms[i].orderId] <= ms[i].Remaining()
  }

  function Allocated(ms: seq<Order>, alloc: map<nat, int>): int
    requires forall i | 0 <= i < |ms| :: ms[i].orderId in alloc
  {
    if ms == [] then 0 else alloc[ms[0].orderId] + Allocated(ms[1..], alloc)
  }

  function Cost(ms: seq<Order>, alloc: map<nat, int>): int
    requires forall i | 0 <= i < |ms| :: ms[i].orderId in alloc
  {
    if ms == [] then 0
    else alloc[ms[0].orderId] * ms[0].price + Cost(ms[1..], alloc)
  }

  /// What is paid over a price p per unit.
  function PaidOver(ms: seq<Message>, p: int): int {
    if ms == [] then 0
    else Quantity(ms[0]) * ((if ms[0].Trade? then ms[0].record.price else 0) - p) + PaidOver(ms[1..], p)
  }

  function CostOver(ms: seq<Order>, alloc: map<nat, int>, p: int): int
    requires forall i | 0 <= i < |ms| :: ms[i].orderId in alloc
  {
    if ms == [] then 0
    else alloc[ms[0].orderId] * (ms[0].price - p) + CostOver(ms[1..], alloc, p)
  }

  lemma {:induction false} PaidOverIs(ms: seq<Message>, p: int)
    ensures PaidOver(ms, p) == Paid(ms) - p * Volume(ms)
  {
    if ms != [] {
      PaidOverIs(ms[1..], p);
      var q, v := Quantity(ms[0]), Volume(ms[1..]);
      var price := if ms[0].Trade? then ms[0].record.price else 0;
      assert q * (price - p) == q * price - p * q;
      assert p * (q + v) == p * q + p * v;
    }
  }

  lemma {:induction false} CostOverIs(ms: seq<Order>, alloc: map<nat, int>, p: int)
    requires forall i | 0 <= i < |ms| :: ms[i].orderId in alloc
    ensures CostOver(ms, alloc, p) == Cost(ms, alloc) - p * Allocated(ms, alloc)
  {
    if ms != [] {
      CostOverIs(ms[1..], alloc, p);
      var a, v, price := alloc[ms[0].orderId], Allocated(ms[1..], alloc), ms[0].price;
      assert a * (price - p) == a * price - p * a;
      assert p * (a + v) == p * a + p * v;
    }
  }

  lemma {:induction false} CostAbove(ms: seq<Order>, alloc: map<nat, int>, p: int)
    requires Feasible(ms, alloc)
    requires forall i | 0 <= i < |ms| :: p <= ms[i].price
    ensures 0 <= CostOver(ms, alloc, p)
  {
    if ms != [] {
      CostAbove(ms[1..], alloc, p);
      assert alloc[ms[0].orderId] * (ms[0].price - p) >= 0;
    }
  }

  /// Below the marginal price, taking all of a maker costs least.
  lemma Exhausting(q: int, a: int, d: int)
    requires a <= q && d <= 0
    ensures q * d <= a * d
  {
    assert (q - a) * d <= 0;
  }

  /// p separates the first n makers from the others, and is the price of the n-th.
  ghost predicate Marginal(ms: seq<Order>, n: nat, p: int) {
    && n <= |ms|
    && (forall i | 0 <= i < n :: ms[i].price <= p)
    && (forall i | n <= i < |ms| :: p <= ms[i].price)
    && (0 < n ==> ms[n - 1].price == p)
  }

  lemma MarginalTail(ms: seq<Order>, n: nat, p: int)
    requires Marginal(ms, n, p) && n > 0
    ensures Marginal(ms[1..], n - 1, p)
  {
    var rest := ms[1..];
    assert forall i | 0 <= i < |rest| :: rest[i] == ms[i + 1];
  }

  /** No allocation beats the walk in cost over the marginal price. */
  lemma {:induction false} MarginalPrice(t: Order, ms: seq<Order>, alloc: map<nat, int>, p: int)
    requires t.WellFormed() && AllOpen(ms) && Feasible(ms, alloc)
    requires Marginal(ms, |Fill(t, ms).messages|, p)
    ensures PaidOver(Fill(t, ms).messages, p) <= CostOver(ms, alloc, p)
    decreases |ms|
  {
    hide Execute, Accepts;
    var n := |Fill(t, ms).messages|;
    if n == 0 {
      CostAbove(ms, alloc, p);
    } else {
      var x := Execute(t, ms[0]);
      MarginalTail(ms, n, p);
      if x.maker.Open() {
        CostAbove(ms[1..], alloc, p);
        assert PaidOver([x.Report()], p) == x.record.quantity * (ms[0].price - p) + PaidOver([], p);
      } else {
        MarginalPrice(x.taker, ms[1..], alloc, p);
        Exhausting(x.record.quantity, alloc[ms[0].orderId], ms[0].price - p);
      }
    }
  }

  /** A buy taker pays the least for the quantity it gets, over all ways of taking that
      quantity from the makers. */
  lemma FillOptimalBuy(t: Order, ms: seq<Order>, alloc: map<nat, int>)
    requires t.WellFormed() && t.Buys() && AllOpen(ms) && Prioritized(true, ms)
    requires Feasible(ms, alloc)
    requires Allocated(ms, alloc) == Volume(Fill(t, ms).messages)
    ensures Paid(Fill(t, ms).messages) <= Cost(ms, alloc)
  {
    hide Fill, Accepts;
    var messages := Fill(t, ms).messages;
    var n := |messages|;
    TouchedPrefix(t, ms);
    var p := if n > 0 then ms[n - 1].price else if ms != [] then ms[0].price else 0;
    assert Marginal(ms, n, p) by {
      forall i, j | 0 <= i < j < |ms| ensures ms[i].price <= ms[j].price {
        assert Ahead(true, ms[i], ms[j]);
      }
    }
    MarginalPrice(t, ms, alloc, p);
    PaidOverIs(messages, p);
    CostOverIs(ms, alloc, p);
  }
}
