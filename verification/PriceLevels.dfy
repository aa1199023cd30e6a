/** The books as the source stores them, price -> orderId -> Order for each side, as a view
    of the flat book. */
module PriceLevels {
  import opened Orders
  import opened Matching

  type Level = map<nat, Order>
  type Ladder = map<int, Level>

  function AtPrice(b: Book, buys: bool, p: int): Level {
    map id | id in b && b[id].Buys() == buys && b[id].price == p :: b[id]
  }

  function Prices(b: Book, buys: bool): set<int> {
    set id | id in b && b[id].Buys() == buys :: b[id].price
  }

  function LadderOf(b: Book, buys: bool): Ladder {
    map p | p in Prices(b, buys) :: AtPrice(b, buys, p)
  }

  /** Well-formedness of a nested map: every entry sits under its own price and id, ids are
      unique across levels, no level is empty, every entry is open and on the right side. */
  ghost predicate WellFormedLadder(l: Ladder, buys: bool) {
    && (forall p | p in l :: l[p] != map[])
    && (forall p, id | p in l && id in l[p] ::
          l[p][id].price == p && l[p][id].orderId == id && l[p][id].Open() && l[p][id].Buys() == buys)
    && (forall p, q, id | p in l && q in l && id in l[p] && id in l[q] :: p == q)
  }

  lemma LadderWellFormed(b: Book, buys: bool)
    requires ValidBook(b)
    ensures WellFormedLadder(LadderOf(b, buys), buys)
  {
    var l := LadderOf(b, buys);
    forall p | p in l ensures l[p] != map[] {
      LevelExists(b, buys, p);
    }
  }

  /** The two ladders determine the flat book: an order is resting exactly when the ladder
      of its side holds it under its price and its id. */
  lemma LadderMember(b: Book, o: Order)
    requires ValidBook(b)
    ensures (o.orderId in b && b[o.orderId] == o) <==>
            (var l := LadderOf(b, o.Buys());
             o.price in l && o.orderId in l[o.price] && l[o.price][o.orderId] == o)
  {
    if o.orderId in b && b[o.orderId] == o {
      assert o.price in Prices(b, o.Buys());
    }
  }

  /// A ladder has a level at p exactly when some order of that side has price p.
  lemma LevelExists(b: Book, buys: bool, p: int)
    ensures p in LadderOf(b, buys) <==> AtPrice(b, buys, p) != map[]
  {
    if p in Prices(b, buys) {
      var id :| id in b && b[id].Buys() == buys && b[id].price == p;
      assert id in AtPrice(b, buys, p);
    } else if AtPrice(b, buys, p) != map[] {
      var id :| id in AtPrice(b, buys, p);
      assert false;
    }
  }

  /// A ladder whose level p is shown even when it has become empty.
  function Opened(b: Book, buys: bool, p: int): Ladder {
    LadderOf(b, buys)[p := AtPrice(b, buys, p)]
  }

  /// Erasing the level at p when it is empty gives the ladder back.
  lemma CloseLevel(b: Book, buys: bool, p: int)
    ensures LadderOf(b, buys) ==
            if AtPrice(b, buys, p) == map[] then Opened(b, buys, p) - {p} else Opened(b, buys, p)
  {
    LevelExists(b, buys, p);
  }

  /// Books that agree at every other price have the same ladder but for level p.
  lemma AgreeBut(b: Book, c: Book, buys: bool, p: int)
    requires forall q | q != p :: AtPrice(c, buys, q) == AtPrice(b, buys, q)
    ensures Opened(c, buys, p) == LadderOf(b, buys)[p := AtPrice(c, buys, p)]
  {
    forall q ensures q != p ==> (q in LadderOf(c, buys) <==> q in LadderOf(b, buys)) {
      LevelExists(b, buys, q);
      LevelExists(c, buys, q);
    }
  }

  lemma Agree(b: Book, c: Book, buys: bool)
    requires forall q :: AtPrice(c, buys, q) == AtPrice(b, buys, q)
    ensures LadderOf(c, buys) == LadderOf(b, buys)
  {
    forall q ensures q in LadderOf(c, buys) <==> q in LadderOf(b, buys) {
      LevelExists(b, buys, q);
      LevelExists(c, buys, q);
    }
  }

  lemma SettleAtPrice(b: Book, maker: Order, buys: bool, q: int)
    requires ValidBook(b)
    requires maker.orderId in b
    requires b[maker.orderId].price == maker.price && b[maker.orderId].side == maker.side
    ensures AtPrice(Settle(b, maker), buys, q) ==
            if buys == maker.Buys() && q == maker.price then Settle(AtPrice(b, buys, q), maker)
            else AtPrice(b, buys, q)
  {
  }

  /** Writing a maker back, or erasing it, inside its level. */
  lemma SettleLevel(b: Book, maker: Order)
    requires ValidBook(b)
    requires maker.orderId in b
    requires b[maker.orderId].price == maker.price && b[maker.orderId].side == maker.side
    ensures var buys, p := maker.Buys(), maker.price;
            Opened(Settle(b, maker), buys, p) ==
            Opened(b, buys, p)[p := Settle(AtPrice(b, buys, p), maker)]
    ensures LadderOf(Settle(b, maker), !maker.Buys()) == LadderOf(b, !maker.Buys())
  {
    hide AtPrice, LadderOf;
    var buys, p := maker.Buys(), maker.price;
    var c := Settle(b, maker);
    forall side: bool, q
      ensures AtPrice(c, side, q) ==
              if side == buys && q == p then Settle(AtPrice(b, side, q), maker)
              else AtPrice(b, side, q)
    {
      SettleAtPrice(b, maker, side, q);
    }
    AgreeBut(b, c, buys, p);
    Agree(b, c, !buys);
  }

  /** orderBook[price][orderId] = order, operator[] creating the level when it is missing. */
  function AddToLadder(l: Ladder, o: Order): Ladder {
    var level := if o.price in l then l[o.price] else map[];
    l[o.price := level[o.orderId := o]]
  }

  /// o is new to the book, or replaces an order of the same price and side.
  predicate Compatible(b: Book, o: Order) {
    o.orderId in b ==> b[o.orderId].price == o.price && b[o.orderId].side == o.side
  }

  lemma AddAtPrice(b: Book, o: Order, buys: bool, q: int)
    requires Compatible(b, o)
    ensures AtPrice(b[o.orderId := o], buys, q) ==
            if buys == o.Buys() && q == o.price then AtPrice(b, buys, q)[o.orderId := o]
            else AtPrice(b, buys, q)
  {
  }

  /** Adding an order to the flat book adds it to the ladder of its side. */
  lemma AddLadder(b: Book, o: Order)
    requires Compatible(b, o)
    ensures LadderOf(b[o.orderId := o], o.Buys()) == AddToLadder(LadderOf(b, o.Buys()), o)
    ensures LadderOf(b[o.orderId := o], !o.Buys()) == LadderOf(b, !o.Buys())
  {
    var c, buys, p := b[o.orderId := o], o.Buys(), o.price;
    forall side: bool, q
      ensures AtPrice(c, side, q) ==
              if side == buys && q == p then AtPrice(b, side, q)[o.orderId := o]
              else AtPrice(b, side, q)
    {
      AddAtPrice(b, o, side, q);
    }
    AgreeBut(b, c, buys, p);
    Agree(b, c, !buys);
    LevelExists(b, buys, p);
    assert o.orderId in AtPrice(c, buys, p);
    CloseLevel(c, buys, p);
  }
}
