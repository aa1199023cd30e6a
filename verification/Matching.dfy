/** What the engine computes, stated on a flat book: the resting orders by id.
    The nested price maps of the source are a view of this book (module PriceLevels). */
module Matching {
  import opened Orders

  type Book = map<nat, Order>

  ghost predicate ValidBook(b: Book) {
    forall id | id in b :: b[id].orderId == id && b[id].Open()
  }

  /// The taker's limit admits the maker's price.
  predicate Accepts(taker: Order, maker: Order) {
    if taker.Buys() then maker.price <= taker.price else maker.price >= taker.price
  }

  predicate Crosses(taker: Order, maker: Order) {
    taker.Buys() != maker.Buys() && Accepts(taker, maker)
  }

  /// a is served before b: better price for the taker, then the smaller id.
  predicate Ahead(takerBuys: bool, a: Order, b: Order) {
    if a.price != b.price then (if takerBuys then a.price < b.price else a.price > b.price)
    else a.orderId < b.orderId
  }

  ghost predicate Uncrossed(b: Book) {
    forall i, j | i in b && j in b && b[i].Buys() && !b[j].Buys() :: b[i].price < b[j].price
  }

  function Candidates(b: Book, t: Order): set<nat> {
    set id | id in b && Crosses(t, b[id])
  }

  ghost predicate IsBest(b: Book, ids: set<nat>, takerBuys: bool, k: nat)
    requires ids <= b.Keys
  {
    k in ids && forall j | j in ids && j != k :: Ahead(takerBuys, b[k], b[j])
  }

  lemma {:induction false} BestExists(b: Book, ids: set<nat>, takerBuys: bool)
    requires ValidBook(b) && ids <= b.Keys && ids != {}
    ensures exists k :: IsBest(b, ids, takerBuys, k)
    decreases |ids|
  {
    var x :| x in ids;
    var rest := ids - {x};
    if rest == {} {
      assert ids == {x};
      assert IsBest(b, ids, takerBuys, x);
    } else {
      BestExists(b, rest, takerBuys);
      var k :| IsBest(b, rest, takerBuys, k);
      var best := if Ahead(takerBuys, b[x], b[k]) then x else k;
      assert IsBest(b, ids, takerBuys, best);
    }
  }

  /** The maker served first among ids. */
  ghost function Best(b: Book, ids: set<nat>, takerBuys: bool): (k: nat)
    requires ValidBook(b) && ids <= b.Keys && ids != {}
    ensures IsBest(b, ids, takerBuys, k)
  {
    BestExists(b, ids, takerBuys);
    var k :| IsBest(b, ids, takerBuys, k);
    k
  }

  lemma BestUnique(b: Book, ids: set<nat>, takerBuys: bool, k: nat)
    requires ValidBook(b) && ids <= b.Keys && IsBest(b, ids, takerBuys, k)
    ensures Best(b, ids, takerBuys) == k
  {
    var j := Best(b, ids, takerBuys);
  }

  /// The book after the maker has traded: a completed maker is removed.
  function Settle(b: Book, maker: Order): Book {
    if maker.filled >= maker.quantity then b - {maker.orderId} else b[maker.orderId := maker]
  }

  ghost predicate CanTrade(b: Book, t: Order) {
    t.Open() && Candidates(b, t) != {}
  }

  /// The next trade of taker t.
  ghost function NextTrade(b: Book, t: Order): Execution
    requires ValidBook(b) && CanTrade(b, t)
  {
    Execute(t, b[Best(b, Candidates(b, t), t.Buys())])
  }

  datatype MatchResult = MatchResult(taker: Order, book: Book, messages: seq<Message>)

  lemma SettleShrinks(b: Book, t: Order)
    requires ValidBook(b) && CanTrade(b, t)
    ensures var x := NextTrade(b, t);
            x.maker.orderId in b && ValidBook(Settle(b, x.maker)) &&
            if x.maker.Open() then Settle(b, x.maker).Keys == b.Keys && x.taker.Remaining() == 0
            else Settle(b, x.maker).Keys == b.Keys - {x.maker.orderId} &&
                 |Settle(b, x.maker)| == |b| - 1
  {
    var x := NextTrade(b, t);
    var k := Best(b, Candidates(b, t), t.Buys());
    assert x.maker.orderId == k;
    if x.maker.Open() {
      assert Settle(b, x.maker).Keys == b.Keys;
    } else {
      assert Settle(b, x.maker).Keys == b.Keys - {k};
      assert |b.Keys - {k}| == |b.Keys| - 1;
    }
  }

  /** All the trades of taker t, best maker first, until t is complete or nothing is left
      that it accepts. */
  ghost function Match(b: Book, t: Order): (r: MatchResult)
    requires ValidBook(b) && t.WellFormed()
    ensures ValidBook(r.book) && r.book.Keys <= b.Keys
    ensures r.taker.WellFormed() && r.taker == t.(filled := r.taker.filled)
    ensures t.filled <= r.taker.filled
    ensures !CanTrade(r.book, r.taker)
    decreases |b|, t.Remaining()
  {
    if CanTrade(b, t) then
      SettleShrinks(b, t);
      var x := NextTrade(b, t);
      var r := Match(Settle(b, x.maker), x.taker);
      r.(messages := [x.Report()] + r.messages)
    else MatchResult(t, b, [])
  }

  /// One trade, and then the rest.
  lemma MatchUnfold(b: Book, t: Order)
    requires ValidBook(b) && t.WellFormed() && CanTrade(b, t)
    ensures var x := NextTrade(b, t);
            && ValidBook(Settle(b, x.maker)) && x.taker.WellFormed()
            && |Settle(b, x.maker)| <= |b| && x.taker.Remaining() < t.Remaining()
            && var r := Match(Settle(b, x.maker), x.taker);
               Match(b, t) == r.(messages := [x.Report()] + r.messages)
  {
    SettleShrinks(b, t);
    var x := NextTrade(b, t);
    if x.maker.Open() {
      assert |Settle(b, x.maker).Keys| == |b.Keys|;
    }
  }

  lemma MatchStops(b: Book, t: Order)
    requires ValidBook(b) && t.WellFormed() && !CanTrade(b, t)
    ensures Match(b, t) == MatchResult(t, b, [])
  {
  }

  /// What happens to a taker that can trade no more.
  function Rest(b: Book, t: Order): Book {
    if t.Open() then b[t.orderId := t] else b
  }

  function RestMessages(t: Order): seq<Message> {
    if t.filled == 0 then [UnmatchedOrder(t)] else []
  }

  datatype Outcome = Outcome(book: Book, messages: seq<Message>)

  /** One order through the engine. */
  ghost function Process(b: Book, o: Order): (r: Outcome)
    requires ValidBook(b) && o.WellFormed()
    ensures ValidBook(r.book)
    ensures r.book.Keys <= b.Keys + {o.orderId}
  {
    var m := Match(b, o);
    Outcome(Rest(m.book, m.taker), m.messages + RestMessages(m.taker))
  }

  /** A queue of orders through the engine. */
  ghost function ProcessAll(b: Book, os: seq<Order>): (r: Outcome)
    requires ValidBook(b) && forall i | 0 <= i < |os| :: os[i].WellFormed()
    ensures ValidBook(r.book)
    decreases |os|
  {
    if os == [] then Outcome(b, []) else
      var first := Process(b, os[0]);
      var rest := ProcessAll(first.book, os[1..]);
      Outcome(rest.book, first.messages + rest.messages)
  }
}
