/** Reloading: the resting orders go back into an empty engine without trading, in whatever
    order they come, and the interrupted order then resumes where the tables left it. */
module Rebuild {
  import opened Orders
  import opened Matching
  import opened PriceLevels
  import opened Tables
  import opened Canonical

  /// os names each order of b that is not in c, once, in any order.
  ghost predicate Lists(b: Book, c: Book, os: seq<Order>) {
    && (forall i | 0 <= i < |os| ::
          os[i].orderId in b && os[i].orderId !in c && b[os[i].orderId] == os[i])
    && (forall i, j | 0 <= i < j < |os| :: os[i].orderId != os[j].orderId)
    && (forall id | id in c :: id in b && b[id] == c[id])
    && (forall id | id in b :: id in c || b[id] in os)
  }

  ghost predicate NoTrades(ms: seq<Message>) {
    forall i | 0 <= i < |ms| :: ms[i].UnmatchedOrder?
  }

  /// An order of an uncrossed book finds nothing to trade with in a part of that book.
  lemma JoinsWithoutTrade(b: Book, c: Book, o: Order)
    requires ValidBook(b) && Uncrossed(b)
    requires forall id | id in c :: id in b && b[id] == c[id]
    requires o.orderId in b && b[o.orderId] == o
    ensures ValidBook(c)
    ensures Process(c, o) == Outcome(c[o.orderId := o], RestMessages(o))
  {
    forall id | id in c ensures !Crosses(o, c[id]) {
      assert id in b && b[id] == c[id];
    }
    assert Candidates(c, o) == {};
    MatchStops(c, o);
    assert [] + RestMessages(o) == RestMessages(o);
  }

  lemma {:induction false} RebuildFrom(b: Book, c: Book, os: seq<Order>)
    requires ValidBook(b) && Uncrossed(b) && Lists(b, c, os)
    ensures ValidBook(c) && (forall i | 0 <= i < |os| :: os[i].WellFormed())
    ensures ProcessAll(c, os).book == b && NoTrades(ProcessAll(c, os).messages)
    decreases |os|
  {
    hide Process, Uncrossed, Match, Lists, ValidBook;
    ListsBasics(b, c, os);
    if os != [] {
      var o, rest := os[0], os[1..];
      JoinsWithoutTrade(b, c, o);
      ListsRest(b, c, os);
      RebuildFrom(b, c[o.orderId := o], rest);
    }
  }

  lemma ListsBasics(b: Book, c: Book, os: seq<Order>)
    requires ValidBook(b) && Lists(b, c, os)
    ensures ValidBook(c) && (forall i | 0 <= i < |os| :: os[i].WellFormed())
    ensures forall id | id in c :: id in b && b[id] == c[id]
    ensures os == [] ==> c == b
    ensures os != [] ==> os[0].orderId in b && b[os[0].orderId] == os[0]
  {
  }

  lemma ListsRest(b: Book, c: Book, os: seq<Order>)
    requires ValidBook(b) && Lists(b, c, os) && os != []
    ensures Lists(b, c[os[0].orderId := os[0]], os[1..])
  {
    var o, rest := os[0], os[1..];
    assert forall i | 0 <= i < |rest| :: rest[i] == os[i + 1];
    forall id | id in b ensures id in c[o.orderId := o] || b[id] in rest {
      if id !in c {
        assert b[id] in os;
        assert b[id] == o || b[id] in rest;
      }
    }
  }

  /** Resending the orders of any uncrossed book, in any permutation, into an empty engine
      trades nothing and rebuilds the same two nested maps. */
  lemma RebuildAnyOrder(b: Book, os: seq<Order>)
    requires ValidBook(b) && Uncrossed(b) && Lists(b, map[], os)
    ensures forall i | 0 <= i < |os| :: os[i].WellFormed()
    ensures var r := ProcessAll(map[], os);
            && NoTrades(r.messages)
            && LadderOf(r.book, true) == LadderOf(b, true)
            && LadderOf(r.book, false) == LadderOf(b, false)
  {
    RebuildFrom(b, map[], os);
  }

  /** After a crash at any point the rows below the next order, resent in any permutation,
      rebuild the engine's books without trading; and the next order, resent with its stored
      fill, makes exactly the message that the tables call for. */
  lemma ReloadResumes(t: Tables, x: nat, os: seq<Order>)
    requires ValidTables(t) && IsNext(t, x) && Lists(OpenBelow(t, x), map[], os)
    ensures forall i | 0 <= i < |os| :: os[i].WellFormed()
    ensures var r := ProcessAll(map[], os);
            && r.book == OpenBelow(t, x)
            && NoTrades(r.messages)
            && var next := Process(r.book, t.orders[x].order).messages;
               HasNext(t) && next != [] && next[0] == NextMessage(t)
  {
    BelowUncrossed(t, x);
    RebuildFrom(OpenBelow(t, x), map[], os);
    NextIs(t, x);
    var b, o := OpenBelow(t, x), t.orders[x].order;
    if CanTrade(b, o) {
      MatchUnfold(b, o);
    } else {
      MatchStops(b, o);
    }
  }

  // ---- resending to an engine that still holds its orders ----

  lemma ResendOne(b: Book, o: Order)
    requires ValidBook(b) && Uncrossed(b) && o.Open()
    requires o.orderId in b && o == b[o.orderId].(filled := o.filled)
    ensures Process(b, o) == Outcome(b[o.orderId := o], RestMessages(o))
  {
    forall id | id in b ensures !Crosses(o, b[id]) {
      assert o.Buys() == b[o.orderId].Buys() && o.price == b[o.orderId].price;
    }
    assert Candidates(b, o) == {};
    MatchStops(b, o);
    assert [] + RestMessages(o) == RestMessages(o);
  }

  lemma TradesAreReported(b: Book, o: Order)
    requires ValidBook(b) && CanTrade(b, o)
    ensures !NoTrades(Process(b, o).messages)
  {
    MatchUnfold(b, o);
    assert Process(b, o).messages[0] == NextTrade(b, o).Report();
  }

  lemma QuietProcess(b: Book, o: Order)
    requires ValidBook(b) && o.Open() && NoTrades(Process(b, o).messages)
    ensures Process(b, o).book == b[o.orderId := o]
  {
    if CanTrade(b, o) {
      TradesAreReported(b, o);
    }
    MatchStops(b, o);
  }

  /// Processing orders without a trade leaves the entries of other ids alone.
  lemma {:induction false} QuietKeeps(b: Book, os: seq<Order>, id: nat)
    requires ValidBook(b) && id in b
    requires forall i | 0 <= i < |os| :: os[i].WellFormed() && os[i].Open() && os[i].orderId != id
    requires NoTrades(ProcessAll(b, os).messages)
    ensures id in ProcessAll(b, os).book && ProcessAll(b, os).book[id] == b[id]
    decreases |os|
  {
    hide Process;
    if os != [] {
      QuietHead(b, os);
      QuietProcess(b, os[0]);
      QuietKeeps(b[os[0].orderId := os[0]], os[1..], id);
    }
  }

  lemma ProcessAllUnfold(b: Book, os: seq<Order>)
    requires ValidBook(b) && os != [] && forall i | 0 <= i < |os| :: os[i].WellFormed()
    ensures ProcessAll(b, os).messages ==
            Process(b, os[0]).messages + ProcessAll(Process(b, os[0]).book, os[1..]).messages
  {
    hide Process;
  }

  lemma QuietHead(b: Book, os: seq<Order>)
    requires ValidBook(b) && os != [] && forall i | 0 <= i < |os| :: os[i].WellFormed()
    requires NoTrades(ProcessAll(b, os).messages)
    ensures NoTrades(Process(b, os[0]).messages)
    ensures NoTrades(ProcessAll(Process(b, os[0]).book, os[1..]).messages)
  {
    hide ProcessAll, Process, NoTrades;
    ProcessAllUnfold(b, os);
    QuietParts(Process(b, os[0]).messages, ProcessAll(Process(b, os[0]).book, os[1..]).messages);
  }

  lemma QuietParts(head: seq<Message>, tail: seq<Message>)
    requires NoTrades(head + tail)
    ensures NoTrades(head) && NoTrades(tail)
  {
    var all := head + tail;
    assert forall i | 0 <= i < |head| :: head[i] == all[i];
    assert forall i | 0 <= i < |tail| :: tail[i] == all[|head| + i];
  }

  predicate Distinct(os: seq<Order>) {
    forall i, j | 0 <= i < j < |os| :: os[i].orderId != os[j].orderId
  }

  /// Open orders that were processed without a trade rest as they came.
  lemma {:induction false} QuietRests(b: Book, os: seq<Order>)
    requires ValidBook(b) && Distinct(os)
    requires forall i | 0 <= i < |os| :: os[i].WellFormed() && os[i].Open()
    requires NoTrades(ProcessAll(b, os).messages)
    ensures forall o | o in os ::
              o.orderId in ProcessAll(b, os).book && ProcessAll(b, os).book[o.orderId] == o
    decreases |os|
  {
    hide Process, NoTrades;
    if os != [] {
      var o, rest := os[0], os[1..];
      QuietHead(b, os);
      QuietProcess(b, o);
      assert forall i | 0 <= i < |rest| :: rest[i] == os[i + 1];
      QuietKeeps(b[o.orderId := o], rest, o.orderId);
      QuietRests(b[o.orderId := o], rest);
    }
  }

  /** A restart of the generator alone is harmless once the result queue has drained: resending
      orders as the engine holds them trades nothing and changes nothing. */
  lemma {:induction false} ResendDrained(b: Book, os: seq<Order>)
    requires ValidBook(b) && Uncrossed(b)
    requires forall i | 0 <= i < |os| :: os[i].orderId in b && b[os[i].orderId] == os[i]
    ensures forall i | 0 <= i < |os| :: os[i].WellFormed()
    ensures ProcessAll(b, os).book == b && NoTrades(ProcessAll(b, os).messages)
    decreases |os|
  {
    hide Process, Uncrossed, Match;
    if os != [] {
      var o := os[0];
      ResendOne(b, o);
      assert b[o.orderId := o] == b;
      ResendDrained(b, os[1..]);
    }
  }
}
