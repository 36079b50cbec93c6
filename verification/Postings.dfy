/** What posting and deleting come to, in the terms of the caller: prices, energies, books. */
module Postings {
  import opened Numeric
  import opened Books
  import opened Fees
  import opened MarketState

  // What the device asked for.
  function Asked(price: real, originalPrice: Option<real>): real {
    match originalPrice
    case None => price
    case Some(original) => original
  }

  // The book has the order under its id, and the others as they were.
  ghost predicate Holds(b: Book, b': Book, o: Order) {
    forall k :: Find(b', k) == if k == o.id then Some(o) else Find(b, k)
  }

  ghost predicate PostedAs(o: Order, id: nat, energy: real, original: real, trader: Trader, timeSlot: int) {
    o.id == id && o.energy == energy && o.originalPrice == original && o.trader == trader && o.timeSlot == timeSlot
  }

  // An offer's price gains the fee: the rate per unit of energy, or the share of what the device asks.
  lemma PostedOffer(cfg: Config, m: Market, price: real, energy: real, seller: Trader, offerId: Option<nat>,
                    originalPrice: Option<real>, dispatch: bool, adaptPrice: bool, timeSlot: int)
    requires Valid(m)
    ensures var (m', r) := PostOffer(cfg, m, price, energy, seller, offerId, originalPrice, dispatch, adaptPrice,
                                     timeSlot);
            var asked := Asked(price, originalPrice);
            var fee := if !adaptPrice then 0.0
                       else if cfg.fee.ConstantFee? then cfg.fee.rate * energy else cfg.fee.rate * asked;
            && (m.readonly ==> r == Err(ReadOnly))
            && (!m.readonly && energy < TOL ==> r == Err(NegativeEnergyOrder))
            && (!m.readonly && energy >= TOL && price + fee < 0.0 ==> r == Err(NegativePriceOrder))
            && (!m.readonly && energy >= TOL && price + fee >= 0.0 ==> r.Ok?)
            && (r.Err? ==> m' == m)
            && (r.Ok? ==>
                  && r.value.price == price + fee
                  && PostedAs(r.value, if offerId.Some? then offerId.value else m.nextId, energy, asked, seller,
                              timeSlot)
                  && Holds(m.offers, m'.offers, r.value) && m'.bids == m.bids && m'.trades == m.trades
                  && !m'.noNewOrder && m'.nextId == m.nextId + (if offerId.Some? then 0 else 1)
                  && m'.events == m.events + (if dispatch then [OfferPosted(r.value)] else []))
  {
    var asked := Asked(price, originalPrice);
    if energy >= TOL {
      OfferPriceIs(cfg.fee, price, asked, energy);
    }
    hide OfferPriceWithFee;
    var (m', r) := PostOffer(cfg, m, price, energy, seller, offerId, originalPrice, dispatch, adaptPrice, timeSlot);
    if r.Ok? {
      PutHolds(m.offers, r.value);
    }
  }

  lemma OfferPriceIs(fee: FeeClass, price: real, original: real, energy: real)
    requires energy > 0.0
    ensures OfferPriceWithFee(fee, price, original, energy) ==
            price + if fee.ConstantFee? then fee.rate * energy else fee.rate * original
  {
    assert price / energy * energy == price;
    match fee
    case ConstantFee(r) => assert (price / energy + r) * energy == price + r * energy;
    case PercentageFee(r) =>
      assert original / energy * energy == original;
      assert (price / energy + original / energy * r) * energy == price + r * original;
  }

  lemma {:induction false} PutHolds(b: Book, o: Order)
    ensures Holds(b, Put(b, o), o)
  {
    if b != [] && b[0].id != o.id {
      PutHolds(b[1..], o);
      assert ([b[0]] + Put(b[1..], o))[1..] == Put(b[1..], o);
    }
  }

  // A bid's price is posted as it is, except that a price of zero becomes, under percentage fees, what
  // the device asked.
  lemma PostedBid(cfg: Config, m: Market, price: real, energy: real, buyer: Trader, bidId: Option<nat>,
                  originalPrice: Option<real>, dispatch: bool, adaptPrice: bool, timeSlot: int)
    requires Valid(m)
    ensures var (m', r) := PostBid(cfg, m, price, energy, buyer, bidId, originalPrice, dispatch, adaptPrice, timeSlot);
            var asked := Asked(price, originalPrice);
            && (energy <= TOL ==> r == Err(NegativeEnergyOrder))
            && (energy > TOL && price < 0.0 ==> r == Err(NegativePriceOrder))
            && (energy > TOL && price >= 0.0 ==> r.Ok?)
            && (r.Err? ==> m' == m)
            && (r.Ok? ==>
                  && r.value.price == (if adaptPrice && cfg.fee.PercentageFee? && price == 0.0 then asked else price)
                  && PostedAs(r.value, if bidId.Some? then bidId.value else m.nextId, energy, asked, buyer, timeSlot)
                  && Holds(m.bids, m'.bids, r.value) && m'.offers == m.offers && m'.trades == m.trades
                  && !m'.noNewOrder && m'.nextId == m.nextId + (if bidId.Some? then 0 else 1)
                  && m'.events == m.events + (if dispatch then [BidPosted(r.value)] else []))
  {
    var asked := Asked(price, originalPrice);
    if energy > TOL {
      BidPriceIs(cfg.fee, price, asked, energy);
    }
    hide BidPriceWithFee;
    var (m', r) := PostBid(cfg, m, price, energy, buyer, bidId, originalPrice, dispatch, adaptPrice, timeSlot);
    if r.Ok? {
      PutHolds(m.bids, r.value);
    }
  }

  lemma BidPriceIs(fee: FeeClass, price: real, original: real, energy: real)
    requires energy > 0.0
    ensures BidPriceWithFee(fee, price, original, energy) ==
            if fee.PercentageFee? && price == 0.0 then original else price
  {
    assert price / energy * energy == price && original / energy * energy == original;
  }

  // A deletion takes one order out; only the offers of a read-only market are protected.
  lemma Deleted(m: Market, id: nat)
    requires Valid(m)
    ensures var (m', r) := DeleteOffer(m, id);
            && (m.readonly ==> r == Err(ReadOnly))
            && (!m.readonly && Find(m.offers, id).None? ==> r == Err(OfferNotFound))
            && (!m.readonly && Find(m.offers, id).Some? ==> r == Ok(Find(m.offers, id).value))
            && (r.Err? ==> m' == m)
            && (r.Ok? ==> m'.bids == m.bids && m'.events == m.events + [OfferDeleted(r.value)] &&
                          forall k :: Find(m'.offers, k) == if k == id then None else Find(m.offers, k))
    ensures var (m', r) := DeleteBid(m, id);
            && (Find(m.bids, id).None? ==> r == Err(BidNotFound))
            && (Find(m.bids, id).Some? ==> r == Ok(Find(m.bids, id).value))
            && (r.Err? ==> m' == m)
            && (r.Ok? ==> m'.offers == m.offers && m'.events == m.events + [BidDeleted(r.value)] &&
                          forall k :: Find(m'.bids, k) == if k == id then None else Find(m.bids, k))
  {
    AfterPop(m.offers, id);
    AfterPop(m.bids, id);
  }
}
