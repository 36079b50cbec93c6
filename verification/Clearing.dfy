/** What a matched pair is settled at, from the prices and energies of the two orders and the recommended
    rate alone. */
module Clearing {
  import opened Numeric
  import opened Books
  import opened Fees
  import opened MarketState
  import opened Acceptance
  import opened Prices
  import opened Validation

  // The rates of both orders, and the rate the devices trade at: what the bid's device asked for under
  // pay-as-bid; otherwise the recommended rate, scaled back by what the bid lost to percentage fees or
  // raised by what it lost to constant ones.
  ghost predicate ClearedAs(cfg: Config, offer: Order, bid: Order, rec: Recommendation, info: TradeInfo) {
    && info.originalBidRate * bid.energy == bid.originalPrice && info.propagatedBidRate * bid.energy == bid.price
    && info.originalOfferRate * offer.energy == offer.originalPrice
    && info.propagatedOfferRate * offer.energy == offer.price
    && (cfg.payAsBid ==> info.tradeRate == info.originalBidRate)
    && (!cfg.payAsBid && cfg.fee.PercentageFee? ==>
          bid.price != 0.0 && info.tradeRate * bid.price == rec.tradeRate * bid.originalPrice)
    && (!cfg.payAsBid && cfg.fee.ConstantFee? ==>
          (info.tradeRate - rec.tradeRate) * bid.energy == bid.originalPrice - bid.price)
  }

  lemma OriginalRateOfBid(bid: Order)
    requires bid.energy > 0.0
    ensures OriginalBidRate(bid) == bid.originalPrice / bid.energy
  {
    assert (bid.originalPrice - bid.price) / bid.energy == bid.originalPrice / bid.energy - bid.price / bid.energy;
  }

  lemma ClearingInfoIsCleared(cfg: Config, offer: Order, bid: Order, rec: Recommendation)
    requires offer.energy > 0.0 && bid.energy > 0.0 && ClearingInfo(cfg, offer, bid, rec.tradeRate).Some?
    ensures ClearedAs(cfg, offer, bid, rec, ClearingInfo(cfg, offer, bid, rec.tradeRate).value)
  {
    OriginalRateOfBid(bid);
    RatesRecover(bid);
    RatesRecover(offer);
    if !cfg.payAsBid {
      match cfg.fee
      case PercentageFee(_) => ScaledBack(bid, rec.tradeRate);
      case ConstantFee(_) => RaisedBack(bid, rec.tradeRate);
    }
  }

  lemma RatesRecover(o: Order)
    requires o.energy > 0.0
    ensures o.price / o.energy * o.energy == o.price && o.originalPrice / o.energy * o.energy == o.originalPrice
    ensures o.price / o.energy == 0.0 <==> o.price == 0.0
  {
  }

  lemma ScaledBack(bid: Order, rate: real)
    requires bid.energy > 0.0 && bid.price != 0.0
    ensures var original, propagated := bid.originalPrice / bid.energy, bid.price / bid.energy;
            propagated != 0.0 && (rate * (original / propagated)) * bid.price == rate * bid.originalPrice
  {
    var original, propagated := bid.originalPrice / bid.energy, bid.price / bid.energy;
    var ratio := original / propagated;
    assert ratio * propagated == original;
    Scaled(ratio, bid.energy, propagated);
    assert ratio * bid.price == bid.originalPrice;
    Scaled(ratio, bid.price, rate);
  }

  lemma RaisedBack(bid: Order, rate: real)
    requires bid.energy > 0.0
    ensures ((rate + (bid.originalPrice / bid.energy - bid.price / bid.energy)) - rate) * bid.energy ==
            bid.originalPrice - bid.price
  {
    assert (bid.originalPrice / bid.energy - bid.price / bid.energy) * bid.energy == bid.originalPrice - bid.price;
  }

  // The trade of one side of the pair.
  ghost predicate LegSettled(cfg: Config, t: Trade, offer: Order, bid: Order, rec: Recommendation, available: real,
                             info: TradeInfo)
  {
    && t.seller == offer.trader && t.buyer == bid.trader
    && TakesOf(Some(rec.selectedEnergy), available, t.tradedEnergy)
    && PricedAt(cfg.fee, info, t.tradedEnergy, t.tradePrice, t.feePrice)
  }

  // A recommendation that trades was within the bounds; both its legs are of the selected energy and at
  // the same rates, which come from the two orders and the recommended rate. The offer's is booked.
  lemma TradedPairIsSettled(cfg: Config, m: Market, rec: Recommendation)
    returns (info: TradeInfo, offerTrade: Trade, bidTrade: Trade)
    requires Valid(m) && Find(m.offers, rec.offerId).Some? && Find(m.bids, rec.bidId).Some? && !cfg.oneSided
    requires MatchAll(cfg, m, [rec], false).1 == Ok(true)
    ensures var o, b := Find(m.offers, rec.offerId).value, Find(m.bids, rec.bidId).value;
            var m' := MatchAll(cfg, m, [rec], false).0;
            && o.trader.uuid != b.trader.uuid && WithinBid(rec, b) && WithinOffer(rec, o)
            && ClearedAs(cfg, o, b, rec, info)
            && LegSettled(cfg, offerTrade, o, b, rec, o.energy, info)
            && LegSettled(cfg, bidTrade, o, b, rec, b.energy, info)
            && offerTrade.timeSlot == o.timeSlot && bidTrade.timeSlot == b.timeSlot
            && m'.trades == m.trades + [offerTrade]
            && OfferTraded(offerTrade) in m'.events && BidTraded(bidTrade) in m'.events
  {
    ResolvedIsOpen(m, rec.offerId, rec.offerOrigin, rec.bidId, rec.bidOrigin);
    FindIn(m.offers, rec.offerId);
    FindIn(m.bids, rec.bidId);
    assert [rec][1..] == [];
    var o, b := Find(m.offers, rec.offerId).value, Find(m.bids, rec.bidId).value;
    BoundsAreChecked(o, b, rec);
    assert MatchOne(cfg, m, rec).Traded?;
    info := ClearingInfo(cfg, o, b, rec.tradeRate).value;
    ClearingInfoIsCleared(cfg, o, b, rec);
    hide AcceptOffer, AcceptBid, ClearingInfo, ClearedAs, TakesOf, PricedAt, RequestedEnergy;
    var m1 := PairSteps(cfg, m, b, o, info, rec.selectedEnergy);
    offerTrade, bidTrade := MatchOne(cfg, m, rec).offerTrade, MatchOne(cfg, m, rec).bidTrade;
    OfferLegIsSettled(cfg, m, b, o, info, rec, offerTrade);
    BidLegIsSettled(cfg, m1, b, o, info, rec, bidTrade);
  }

  lemma OfferLegIsSettled(cfg: Config, m: Market, b: Order, o: Order, info: TradeInfo, rec: Recommendation, t: Trade)
    requires Valid(m) && Find(m.offers, o.id) == Some(o) && !cfg.oneSided
    requires AcceptOffer(cfg, m, o.id, b.trader, Some(rec.selectedEnergy), Some(info), Some(b)).1 == Ok(t)
    ensures LegSettled(cfg, t, o, b, rec, o.energy, info) && t.timeSlot == o.timeSlot
    ensures var m1 := AcceptOffer(cfg, m, o.id, b.trader, Some(rec.selectedEnergy), Some(info), Some(b)).0;
            m1.trades == m.trades + [t] && m1.bids == m.bids && OfferTraded(t) in m1.events
  {
    hide AcceptOffer, TakesOf, PricedAt, RequestedEnergy, OfferTradePrice, BookAfter, AcceptedPiece;
    AcceptedOfferIsPriced(cfg, m, o.id, b.trader, Some(rec.selectedEnergy), Some(info), Some(b));
    AcceptedOfferEffect(cfg, m, o.id, b.trader, Some(rec.selectedEnergy), Some(info), Some(b));
  }

  lemma BidLegIsSettled(cfg: Config, m: Market, b: Order, o: Order, info: TradeInfo, rec: Recommendation, t: Trade)
    requires Valid(m) && Find(m.bids, b.id) == Some(b)
    requires AcceptBid(cfg, m, b, Some(rec.selectedEnergy), o.trader, info, Some(o)).1 == Ok(t)
    ensures LegSettled(cfg, t, o, b, rec, b.energy, info) && t.timeSlot == b.timeSlot
    ensures var m1 := AcceptBid(cfg, m, b, Some(rec.selectedEnergy), o.trader, info, Some(o)).0;
            m1.trades == m.trades && m.events <= m1.events && BidTraded(t) in m1.events
  {
    BidLegSlot(cfg, m, b, o, info, rec);
    hide AcceptBid, TakesOf, PricedAt, RequestedEnergy, BidTradePrice, BookAfter, AcceptedPiece;
    AcceptedBidIsPriced(cfg, m, b, Some(rec.selectedEnergy), o.trader, info, Some(o));
    AcceptedBidEffect(cfg, m, b, Some(rec.selectedEnergy), o.trader, info, Some(o));
  }

  lemma BidLegSlot(cfg: Config, m: Market, b: Order, o: Order, info: TradeInfo, rec: Recommendation)
    requires Valid(m) && Find(m.bids, b.id) == Some(b)
    requires AcceptBid(cfg, m, b, Some(rec.selectedEnergy), o.trader, info, Some(o)).1.Ok?
    ensures AcceptBid(cfg, m, b, Some(rec.selectedEnergy), o.trader, info, Some(o)).1.value.timeSlot == b.timeSlot
  {
    hide BidTradePrice, RequestedEnergy, AddOrCreate, Pop;
  }

  // Under pay-as-bid, a bid that lost nothing on its way pays exactly its rate, whatever the fee class
  // and whatever fees the offer gained.
  lemma BidPaysItsRate(cfg: Config, m: Market, rec: Recommendation)
    requires Valid(m) && Find(m.offers, rec.offerId).Some? && Find(m.bids, rec.bidId).Some?
    requires !cfg.oneSided && cfg.payAsBid
    requires Find(m.bids, rec.bidId).value.originalPrice == Find(m.bids, rec.bidId).value.price
    requires MatchAll(cfg, m, [rec], false).1 == Ok(true)
    ensures var b, m' := Find(m.bids, rec.bidId).value, MatchAll(cfg, m, [rec], false).0;
            && |m'.trades| == |m.trades| + 1
            && var t := m'.trades[|m.trades|];
               t.tradePrice * b.energy == b.price * t.tradedEnergy
  {
    hide MatchAll, TakesOf, PricedAt, WithinBid, WithinOffer;
    var info, offerTrade, _ := TradedPairIsSettled(cfg, m, rec);
    var b, t := Find(m.bids, rec.bidId).value, MatchAll(cfg, m, [rec], false).0.trades[|m.trades|];
    BidHasEnergy(m, rec.bidId);
    SameProduct(info.originalBidRate, info.propagatedBidRate, b.energy);
    RateWhereNothingIsLost(cfg.fee, info, t.tradedEnergy, t.tradePrice, t.feePrice);
    Scaled(info.propagatedBidRate, b.energy, t.tradedEnergy);
  }

  lemma BidHasEnergy(m: Market, id: nat)
    requires Valid(m) && Find(m.bids, id).Some?
    ensures Find(m.bids, id).value.energy > 0.0
  {
    assert OpenBid(Find(m.bids, id).value, m.nextId);
  }

  // What the offer gained is in the price and in the divisor alike.
  lemma RateWhereNothingIsLost(fee: FeeClass, info: TradeInfo, energy: real, price: real, feePrice: real)
    requires PricedAt(fee, info, energy, price, feePrice)
    requires info.originalBidRate == info.propagatedBidRate == info.tradeRate
    ensures price == energy * info.propagatedBidRate
  {
    assert LostShare(info.originalBidRate, info.propagatedBidRate) == 0.0;
    hide LostShare, GainedShare;
    if fee.PercentageFee? {
      SameProduct(price, energy * info.tradeRate, SharesOf(info));
    }
  }
}
