/** Orders for slots that are not open: a market takes them, and its slot lists go wrong. */
module EarlyOrders {
  import opened Numeric
  import opened Books
  import opened Fees
  import opened MarketState
  import opened FutureOrders
  import opened FutureSlots
  import opened MarketRotation
  import opened FutureTrading
  import opened FutureRuns

  // A market does not check that the slot of an order is open. Posting one for another slot makes a
  // slot list on its own side only, and so parts the two sides; for an open slot nothing goes wrong.
  lemma PostingOfferKeepsListsIff(cfg: Config, f: Future, price: real, energy: real, seller: Trader,
                             originalPrice: Option<real>, timeSlot: int)
    requires IndexAgrees(f)
    requires PostOffer(cfg, f.market, price, energy, seller, None, originalPrice, true, true, timeSlot).1.Ok?
    ensures var o := PostOffer(cfg, f.market, price, energy, seller, None, originalPrice, true, true, timeSlot).1.value;
            && Coherent(WithItem(SlotsOf(f).offers, o))
            && (SlotsCoherent(SlotsOf(f).(offers := WithItem(SlotsOf(f).offers, o))) <==> timeSlot in f.bidSlots)
  {
    var o := PostOffer(cfg, f.market, price, energy, seller, None, originalPrice, true, true, timeSlot).1.value;
    OffersAreDistinct(f.market);
    KnownSlots(f);
    AssigningKeepsCoherenceIff(SlotsOf(f).offers, o);
    hide Coherent, Valid, OfferPriceWithFee;
    var x := WithItem(SlotsOf(f).offers, o);
    assert x.slots.Keys == f.offerSlots.Keys + {timeSlot};
    if timeSlot !in f.bidSlots {
      assert timeSlot in x.slots.Keys;
    }
  }

  lemma PostingBidKeepsListsIff(cfg: Config, f: Future, price: real, energy: real, buyer: Trader,
                                originalPrice: Option<real>, timeSlot: int)
    requires IndexAgrees(f)
    requires PostBid(cfg, f.market, price, energy, buyer, None, originalPrice, true, true, timeSlot).1.Ok?
    ensures var b := PostBid(cfg, f.market, price, energy, buyer, None, originalPrice, true, true, timeSlot).1.value;
            && Coherent(WithItem(SlotsOf(f).bids, b))
            && (SlotsCoherent(SlotsOf(f).(bids := WithItem(SlotsOf(f).bids, b))) <==> timeSlot in f.bidSlots)
  {
    var b := PostBid(cfg, f.market, price, energy, buyer, None, originalPrice, true, true, timeSlot).1.value;
    OffersAreDistinct(f.market);
    KnownSlots(f);
    AssigningKeepsCoherenceIff(SlotsOf(f).bids, b);
    hide Coherent, Valid, BidPriceWithFee;
    var x := WithItem(SlotsOf(f).bids, b);
    assert x.slots.Keys == f.bidSlots.Keys + {timeSlot};
    if timeSlot !in f.bidSlots {
      assert timeSlot in x.slots.Keys;
    }
  }

  // ----- an early bid -----

  // The opening loop asks the bids' slot lists which slots it knows: this one it takes for open, or
  // it is too late to open it. The offers have no list for it.
  ghost predicate Blocked(st: Setting, s: Slots, clock: int, t: int) {
    && t !in s.offers.slots
    && (t in s.bids.slots || st.block.closing(t) <= clock)
    && (forall p :: p in s.info ==> p.closingTime == st.block.closing(p.deliveryStart))
  }

  lemma RotationKeepsBlocked(st: Setting, s: Slots, clock: int, now: int, gate: bool, t: int)
    requires WellFormed(st.block) && Blocked(st, s, clock, t) && clock <= now
    ensures Blocked(st, RotatedBy(st, s, now, gate), now, t)
  {
    hide Only, TradesIn, Deletions;
    match st.rotator
    case FutureRotator => assert st.block.closing(t) <= t;
    case ForwardRotator =>
      var closed := ClosedDeliveries(s.info, now);
      KeptAfterAllIs(s, closed);
      WithoutSlotsIff(s.info, closed);
      ClosedDeliveriesIff(s.info, now);
      if st.block.closing(t) > now {
        forall u | u in closed ensures t > u {
          assert st.block.closing(u) <= now;
        }
        assert LaterThanAll(t, closed);
      }
  }

  lemma CycleKeepsBlocked(st: Setting, s: Slots, clock: int, now: int, gate: bool, t: int)
    requires WellFormed(st.block) && Blocked(st, s, clock, t) && clock <= now
    ensures var r := RotatedBy(st, s, now, gate); t !in Opened(st.block, r.bids.slots.Keys, st.inSimulation, now)
    ensures Blocked(st, Cycled(st, s, now, gate), now, t)
  {
    RotationKeepsBlocked(st, s, clock, now, gate, t);
    hide RotatedBy, Opened, WellFormed;
    var r := RotatedBy(st, s, now, gate);
    var created := Opened(st.block, r.bids.slots.Keys, st.inSimulation, now);
    OpenedIff(st.block, r.bids.slots.Keys, st.inSimulation, now, t);
    ParamsAfter(r.info, st.block, now, created);
  }

  datatype Tick = Tick(now: int, gate: bool)

  predicate Ascending(clock: int, ticks: seq<Tick>)
    decreases |ticks|
  {
    ticks == [] || (clock <= ticks[0].now && Ascending(ticks[0].now, ticks[1..]))
  }

  ghost function CycledAll(st: Setting, s: Slots, ticks: seq<Tick>): Slots
    requires WellFormed(st.block)
    decreases |ticks|
  {
    if ticks == [] then s else CycledAll(st, Cycled(st, s, ticks[0].now, ticks[0].gate), ticks[1..])
  }

  lemma {:induction false} BlockedForGood(st: Setting, s: Slots, clock: int, ticks: seq<Tick>, t: int)
    requires WellFormed(st.block) && Blocked(st, s, clock, t) && Ascending(clock, ticks)
    ensures t !in CycledAll(st, s, ticks).offers.slots
    decreases |ticks|
  {
    hide Cycled, WellFormed;
    if ticks != [] {
      CycleKeepsBlocked(st, s, clock, ticks[0].now, ticks[0].gate, t);
      BlockedForGood(st, Cycled(st, s, ticks[0].now, ticks[0].gate), ticks[0].now, ticks[1..], t);
    }
  }

  // A bid for a slot that is not open keeps that slot from ever being opened, however many cycles
  // follow and also where it would have been opened without the bid.
  lemma EarlyBidBlocksItsSlot(st: Setting, f: Future, b: Order, ticks: seq<Tick>)
    requires WellFormed(st.block) && IndexAgrees(f) && InfoAgrees(st, f)
    requires b.timeSlot !in f.bidSlots && Ascending(f.clock, ticks)
    ensures var s := SlotsOf(f).(bids := WithItem(SlotsOf(f).bids, b));
            && b.timeSlot !in CycledAll(st, s, ticks).offers.slots
            && (forall now, gate :: f.clock <= now ==>
                  b.timeSlot !in Opened(st.block, RotatedBy(st, s, now, gate).bids.slots.Keys, st.inSimulation, now))
  {
    hide Cycled, RotatedBy, Opened, CycledAll, WellFormed;
    var s := SlotsOf(f).(bids := WithItem(SlotsOf(f).bids, b));
    assert Blocked(st, s, f.clock, b.timeSlot);
    BlockedForGood(st, s, f.clock, ticks, b.timeSlot);
    forall now, gate | f.clock <= now
      ensures b.timeSlot !in Opened(st.block, RotatedBy(st, s, now, gate).bids.slots.Keys, st.inSimulation, now)
    {
      CycleKeepsBlocked(st, s, f.clock, now, gate, b.timeSlot);
    }
  }

  // ----- an early offer -----

  // An offer for a slot that is not open is forgotten by its slot list when the slot opens: the new,
  // empty list overwrites the one that held it. It stays in the dictionary, and can no longer be
  // taken out of it.
  lemma EarlyOfferIsForgotten(st: Setting, f: Future, o: Order, now: int)
    requires WellFormed(st.block) && IndexAgrees(f) && Find(f.market.offers, o.id).None?
    requires o.timeSlot !in f.bidSlots
    requires o.timeSlot in Opened(st.block, f.bidSlots.Keys, st.inSimulation, now)
    ensures var x := WithItem(SlotsOf(f).offers, o);
            var y := SlotsOpened(SlotsOf(f).(offers := x), st.block, st.inSimulation, now).offers;
            && Removable(x, o.id)
            && Find(y.data, o.id) == Some(o) && y.slots[o.timeSlot] == [] && !Removable(y, o.id)
  {
    hide Opened, WellFormed, Coherent, Valid;
    KnownSlots(f);
    BooksAreDistinct(f);
    PutFresh(f.market.offers, o);
    AfterAppend(f.market.offers, o);
  }
}
