/** Rounding of fees over the fills of one order, as taker and as maker. */
module FeeDrift {
  import opened Orders
  import opened Matching
  import opened BookInvariants

  /// Rounded fee, unrounded fee in 1e-18 units, and number of fills.
  datatype Charge = Charge(fee: int, exact: int, fills: nat)
  {
    function Plus(c: Charge): Charge { Charge(fee + c.fee, exact + c.exact, fills + c.fills) }

    /// The rounded total is within half a unit of 1e-8 per fill of the exact total.
    predicate Close() {
      -5_000_000_000 * fills <= fee * 10_000_000_000 - exact <= 5_000_000_000 * fills
    }
  }

  const NOTHING := Charge(0, 0, 0)

  /// What a message charges the order id in the taker's slot and in the maker's.
  function TakerCharge(m: Message, id: nat): Charge {
    if m.Trade? && m.record.takerId == id
    then Charge(m.record.takerFee, m.taker.feeRate * m.record.quantity * m.record.price, 1)
    else NOTHING
  }

  function MakerCharge(m: Message, id: nat): Charge {
    if m.Trade? && m.record.makerId == id
    then Charge(m.record.makerFee, m.maker.feeRate * m.record.quantity * m.record.price, 1)
    else NOTHING
  }

  function Charged(ms: seq<Message>, id: nat): Charge {
    if ms == [] then NOTHING
    else TakerCharge(ms[0], id).Plus(MakerCharge(ms[0], id)).Plus(Charged(ms[1..], id))
  }

  lemma PlusClose(c: Charge, d: Charge)
    requires c.Close() && d.Close()
    ensures c.Plus(d).Close()
  {
  }

  lemma ChargeClose(m: Message, id: nat)
    requires Genuine(m)
    ensures TakerCharge(m, id).Close() && MakerCharge(m, id).Close()
  {
  }

  ghost predicate AllGenuine(ms: seq<Message>) {
    forall m | m in ms :: Genuine(m)
  }

  lemma {:induction false} LogClose(ms: seq<Message>, id: nat)
    requires AllGenuine(ms)
    ensures Charged(ms, id).Close()
  {
    if ms != [] {
      assert ms[0] in ms;
      LogClose(ms[1..], id);
      ChargeClose(ms[0], id);
      PlusClose(TakerCharge(ms[0], id), MakerCharge(ms[0], id));
      PlusClose(TakerCharge(ms[0], id).Plus(MakerCharge(ms[0], id)), Charged(ms[1..], id));
    }
  }

  lemma {:induction false} RunGenuine(b: Book, os: seq<Order>)
    requires ValidBook(b) && forall i | 0 <= i < |os| :: os[i].WellFormed()
    ensures AllGenuine(ProcessAll(b, os).messages)
    decreases |os|
  {
    hide Match, Genuine;
    if os != [] {
      MatchTouches(b, os[0]);
      var t := Match(b, os[0]).taker;
      assert Genuine(UnmatchedOrder(t)) by { ReportGenuine(t); }
      RunGenuine(Process(b, os[0]).book, os[1..]);
      var head, tail := Process(b, os[0]).messages, ProcessAll(Process(b, os[0]).book, os[1..]).messages;
      forall m | m in head + tail ensures Genuine(m) {
        assert m in head || m in tail;
      }
    }
  }

  lemma ReportGenuine(o: Order)
    ensures Genuine(UnmatchedOrder(o))
  {
  }

  /** Over a whole run, and over all fills of an order in either slot, the fees it is charged
      differ from the exact fees by at most half a unit of 1e-8 per fill. */
  lemma RunFeeDrift(b: Book, os: seq<Order>, id: nat)
    requires ValidBook(b) && forall i | 0 <= i < |os| :: os[i].WellFormed()
    ensures Charged(ProcessAll(b, os).messages, id).Close()
  {
    RunGenuine(b, os);
    LogClose(ProcessAll(b, os).messages, id);
  }
}
