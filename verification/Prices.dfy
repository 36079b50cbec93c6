/** What a trade costs, in the rates of the orders and of the trade info alone. With percentage fees a
    price is scaled from what the devices agreed on to what the market's traders pay; the shares that
    the bid lost and the offer gained on their way make up the divisor. */
module Prices {
  import opened Numeric
  import opened Books
  import opened Fees
  import opened MarketState
  import opened Acceptance
  import opened Settlement

  // The share of its rate that a bid lost on its way here, and the one that an offer gained.
  function LostShare(original: real, propagated: real): real {
    if original == 0.0 then 0.0 else (original - propagated) / original
  }

  function GainedShare(original: real, propagated: real): real {
    if original == 0.0 then 0.0 else (propagated - original) / original
  }

  function SharesOf(info: TradeInfo): real {
    1.0 + LostShare(info.originalBidRate, info.propagatedBidRate) +
    GainedShare(info.originalOfferRate, info.propagatedOfferRate)
  }

  // The price of so much energy, and the fee in it. What the seller's side gained is part of the price.
  ghost predicate PricedAt(fee: FeeClass, info: TradeInfo, energy: real, price: real, feePrice: real) {
    match fee
    case ConstantFee(rate) => price == energy * info.propagatedBidRate && feePrice == rate * energy
    case PercentageFee(rate) =>
      && SharesOf(info) != 0.0
      && price * SharesOf(info) ==
         energy * info.tradeRate * (1.0 + GainedShare(info.originalOfferRate, info.propagatedOfferRate))
      && feePrice * SharesOf(info) == rate * info.tradeRate * energy
  }

  lemma SharesAreTaxes(info: TradeInfo)
    ensures LostShare(info.originalBidRate, info.propagatedBidRate) == DemandSideTax(info)
    ensures GainedShare(info.originalOfferRate, info.propagatedOfferRate) == SupplySideTax(info)
  {
    var b, o := info.originalBidRate, info.originalOfferRate;
    if b != 0.0 {
      assert (b - info.propagatedBidRate) / b == b / b - info.propagatedBidRate / b;
    }
    if o != 0.0 {
      assert (info.propagatedOfferRate - o) / o == info.propagatedOfferRate / o - o / o;
    }
  }

  // The fee class has a price exactly if the shares do not cancel out.
  lemma PricedIff(fee: FeeClass, info: TradeInfo, energy: real)
    ensures TradePriceAndFees(fee, info).Some? <==> fee.ConstantFee? || SharesOf(info) != 0.0
    ensures TradePriceAndFees(fee, info).Some? ==>
              var p := TradePriceAndFees(fee, info).value;
              PricedAt(fee, info, energy, energy * p.tradeRate, p.feeRate * energy)
  {
    SharesAreTaxes(info);
    if fee.PercentageFee? && SharesOf(info) != 0.0 {
      ScaledPrice(fee.rate, info.tradeRate, SupplySideTax(info), SharesOf(info), energy);
      hide DemandSideTax, SupplySideTax, LostShare, GainedShare;
    }
  }

  lemma ScaledPrice(rate: real, tradeRate: real, gained: real, divisor: real, energy: real)
    requires divisor != 0.0
    ensures var revenue := tradeRate / divisor;
            && (energy * (revenue + revenue * gained)) * divisor == energy * tradeRate * (1.0 + gained)
            && (revenue * rate * energy) * divisor == rate * tradeRate * energy
  {
    var revenue := tradeRate / divisor;
    assert revenue * divisor == tradeRate;
    Scaled(revenue, divisor, energy * (1.0 + gained));
    Scaled(revenue, divisor, rate * energy);
    assert energy * (revenue + revenue * gained) == revenue * (energy * (1.0 + gained));
    assert revenue * rate * energy == revenue * (rate * energy);
  }

  lemma Scaled(x: real, divisor: real, factor: real)
    ensures (x * factor) * divisor == (x * divisor) * factor
  {
  }

  // ----- single acceptances -----

  // How much of an order a request takes: all of it, if that is asked for or the difference is within
  // 1e-8 or a billionth.
  ghost predicate TakesOf(requested: Option<real>, available: real, taken: real) {
    match requested
    case None => taken == available
    case Some(e) =>
      var gap := if e < available then available - e else e - available;
      var larger := Max(Abs(e), Abs(available));
      taken == if gap <= 0.00000001 || gap * 1000000000.0 <= larger then available else e
  }

  lemma RequestTakes(requested: Option<real>, available: real)
    ensures TakesOf(requested, available, RequestedEnergy(requested, available))
  {
  }

  // What an accepted offer costs, in a one-sided market and in a two-sided one, with a trade info and
  // without.
  lemma AcceptedOfferIsPriced(cfg: Config, m: Market, id: nat, buyer: Trader, energy: Option<real>,
                              info: Option<TradeInfo>, bid: Option<Order>)
    requires Valid(m) && AcceptOffer(cfg, m, id, buyer, energy, info, bid).1.Ok?
    ensures var t := AcceptOffer(cfg, m, id, buyer, energy, info, bid).1.value;
            var o := Find(m.offers, id).value;
            && Find(m.offers, id).Some? && TakesOf(energy, o.energy, t.tradedEnergy)
            && t.offer.Some? && t.offer.value.price == t.tradePrice
            && (info.None? ==> t.tradePrice * o.energy == o.price * t.tradedEnergy)
            && (cfg.oneSided && info.Some? ==> t.tradePrice == t.tradedEnergy * info.value.tradeRate)
            && (cfg.oneSided && cfg.fee.ConstantFee? ==> t.feePrice == cfg.fee.rate * t.tradedEnergy)
            && (cfg.oneSided && cfg.fee.PercentageFee? ==>
                  t.feePrice == cfg.fee.rate * (if o.originalPrice != 0.0 then o.originalPrice else o.price))
            && (!cfg.oneSided && info.None? ==> t.feePrice == 0.0)
            && (!cfg.oneSided && info.Some? ==>
                  PricedAt(cfg.fee, info.value, t.tradedEnergy, t.tradePrice, t.feePrice))
  {
    hide AcceptOffer, RequestedEnergy, BookAfter, AcceptedPiece, ResidualPiece, TakesOf, PricedAt, OfferTradePrice,
         Remainder;
    TradedAtItsPrice(cfg, m, id, buyer, energy, info, bid);
    AcceptedOfferEffect(cfg, m, id, buyer, energy, info, bid);
    var o, t := Find(m.offers, id).value, AcceptOffer(cfg, m, id, buyer, energy, info, bid).1.value;
    RequestTakes(energy, o.energy);
    OfferPriceTerms(cfg, o, t.tradedEnergy, info);
  }

  lemma OfferPriceTerms(cfg: Config, o: Order, energy: real, info: Option<TradeInfo>)
    requires o.energy > 0.0
    ensures var p := OfferTradePrice(cfg, 1.0, energy, if info.Some? then info.value.tradeRate else o.Rate(), info,
                                     OriginalOfferPrice(o));
            p.Some? ==>
              var (feePrice, price) := p.value;
              && (info.None? ==> price * o.energy == o.price * energy)
              && (cfg.oneSided && info.Some? ==> price == energy * info.value.tradeRate)
              && (cfg.oneSided && cfg.fee.ConstantFee? ==> feePrice == cfg.fee.rate * energy)
              && (cfg.oneSided && cfg.fee.PercentageFee? ==>
                    feePrice == cfg.fee.rate * (if o.originalPrice != 0.0 then o.originalPrice else o.price))
              && (!cfg.oneSided && info.None? ==> feePrice == 0.0)
              && (!cfg.oneSided && info.Some? ==> PricedAt(cfg.fee, info.value, energy, price, feePrice))
  {
    hide PricedAt, TradePriceAndFees;
    RateTimesEnergy(o, energy);
    var p := OfferTradePrice(cfg, 1.0, energy, if info.Some? then info.value.tradeRate else o.Rate(), info,
                             OriginalOfferPrice(o));
    if !cfg.oneSided && info.Some? && p.Some? {
      PricedByFees(cfg.fee, info.value, energy, p.value.0, p.value.1);
    }
  }

  lemma PricedByFees(fee: FeeClass, info: TradeInfo, energy: real, feePrice: real, price: real)
    requires TradePriceAndFees(fee, info).Some?
    requires feePrice == TradePriceAndFees(fee, info).value.feeRate * energy
    requires price == energy * TradePriceAndFees(fee, info).value.tradeRate
    ensures PricedAt(fee, info, energy, price, feePrice)
  {
    PricedIff(fee, info, energy);
  }

  lemma TradedAtItsPrice(cfg: Config, m: Market, id: nat, buyer: Trader, energy: Option<real>,
                         info: Option<TradeInfo>, bid: Option<Order>)
    requires Valid(m) && AcceptOffer(cfg, m, id, buyer, energy, info, bid).1.Ok?
    ensures var t := AcceptOffer(cfg, m, id, buyer, energy, info, bid).1.value;
            t.offer.Some? && t.offer.value.price == t.tradePrice
  {
    hide OfferTradePrice, RequestedEnergy, AddOrCreate, Pop;
  }

  lemma RateTimesEnergy(o: Order, energy: real)
    requires o.energy != 0.0
    ensures (energy * o.Rate()) * o.energy == o.price * energy
  {
    Scaled(o.Rate(), o.energy, energy);
  }

  // What an accepted bid pays, in a match as in a chain trade.
  lemma AcceptedBidIsPriced(cfg: Config, m: Market, bid: Order, energy: Option<real>, seller: Trader,
                            info: TradeInfo, offer: Option<Order>)
    requires Valid(m) && AcceptBid(cfg, m, bid, energy, seller, info, offer).1.Ok?
    ensures var t := AcceptBid(cfg, m, bid, energy, seller, info, offer).1.value;
            && Find(m.bids, bid.id).Some? && TakesOf(energy, Find(m.bids, bid.id).value.energy, t.tradedEnergy)
            && t.bid.Some? && t.bid.value.price == t.tradePrice
            && PricedAt(cfg.fee, info, t.tradedEnergy, t.tradePrice, t.feePrice)
  {
    hide AcceptBid, RequestedEnergy, TradePriceAndFees, BookAfter, AcceptedPiece, ResidualPiece, TakesOf, PricedAt,
         Remainder;
    TakenAtItsPrice(cfg, m, bid, energy, seller, info, offer);
    AcceptedBidEffect(cfg, m, bid, energy, seller, info, offer);
    var t := AcceptBid(cfg, m, bid, energy, seller, info, offer).1.value;
    RequestTakes(energy, Find(m.bids, bid.id).value.energy);
    PricedByFees(cfg.fee, info, t.tradedEnergy, t.feePrice, t.tradePrice);
  }

  lemma TakenAtItsPrice(cfg: Config, m: Market, bid: Order, energy: Option<real>, seller: Trader,
                        info: TradeInfo, offer: Option<Order>)
    requires Valid(m) && AcceptBid(cfg, m, bid, energy, seller, info, offer).1.Ok?
    ensures var t := AcceptBid(cfg, m, bid, energy, seller, info, offer).1.value;
            t.bid.Some? && t.bid.value.price == t.tradePrice
  {
    hide BidTradePrice, RequestedEnergy, AddOrCreate, Pop;
  }

  // ----- an offer taken in parts -----

  datatype Taken = Taken(price: real, energy: real)

  // One part after the other, each of what the one before left open; None if that does not work out.
  ghost function TakenInParts(cfg: Config, m: Market, id: nat, buyer: Trader, parts: seq<real>): Option<Taken>
    requires Valid(m)
    decreases |parts|
  {
    if parts == [] then Some(Taken(0.0, 0.0))
    else
      var (m1, r) := AcceptOffer(cfg, m, id, buyer, Some(parts[0]), None, None);
      ValidAfterAcceptOffer(cfg, m, id, buyer, Some(parts[0]), None, None);
      if r.Err? then None
      else if |parts| == 1 then Some(Taken(r.value.tradePrice, r.value.tradedEnergy))
      else if r.value.residual.None? then None
      else match TakenInParts(cfg, m1, r.value.residual.value.id, buyer, parts[1..])
        case None => None
        case Some(rest) => Some(Taken(r.value.tradePrice + rest.price, r.value.tradedEnergy + rest.energy))
  }

  // However many parts an offer is taken in, they cost what their energy is worth at its rate.
  lemma {:induction false} PricesOfPartsAddUp(cfg: Config, m: Market, id: nat, buyer: Trader, parts: seq<real>)
    requires Valid(m) && Find(m.offers, id).Some? && TakenInParts(cfg, m, id, buyer, parts).Some?
    ensures var o, taken := Find(m.offers, id).value, TakenInParts(cfg, m, id, buyer, parts).value;
            o.energy > 0.0 && taken.price * o.energy == o.price * taken.energy
    decreases |parts|
  {
    hide AcceptOffer;
    FindIn(m.offers, id);
    var o := Find(m.offers, id).value;
    assert OpenOffer(o, m.nextId);
    if parts != [] {
      var (m1, r) := AcceptOffer(cfg, m, id, buyer, Some(parts[0]), None, None);
      AcceptedOfferIsPriced(cfg, m, id, buyer, Some(parts[0]), None, None);
      if |parts| > 1 {
        ValidAfterAcceptOffer(cfg, m, id, buyer, Some(parts[0]), None, None);
        ResidualIsOpen(cfg, m, id, buyer, parts[0]);
        var left := r.value.residual.value;
        PricesOfPartsAddUp(cfg, m1, left.id, buyer, parts[1..]);
        SameRateParts(o, left, TakenInParts(cfg, m1, left.id, buyer, parts[1..]).value);
      }
    }
  }

  lemma SameRateParts(o: Order, left: Order, taken: Taken)
    requires o.energy > 0.0 && left.energy > 0.0 && left.Rate() == o.Rate()
    requires taken.price * left.energy == left.price * taken.energy
    ensures taken.price * o.energy == o.price * taken.energy
  {
    PriceByRate(left, taken);
    RateTimesEnergy(o, taken.energy);
  }

  lemma PriceByRate(o: Order, taken: Taken)
    requires o.energy > 0.0 && taken.price * o.energy == o.price * taken.energy
    ensures taken.price == taken.energy * o.Rate()
  {
    RateTimesEnergy(o, taken.energy);
    SameProduct(taken.price, taken.energy * o.Rate(), o.energy);
  }

  lemma SameProduct(x: real, y: real, factor: real)
    requires factor != 0.0 && x * factor == y * factor
    ensures x == y
  {
    assert (x - y) * factor == 0.0;
  }

  lemma ResidualIsOpen(cfg: Config, m: Market, id: nat, buyer: Trader, part: real)
    requires Valid(m)
    requires var r := AcceptOffer(cfg, m, id, buyer, Some(part), None, None).1; r.Ok? && r.value.residual.Some?
    ensures var (m1, r) := AcceptOffer(cfg, m, id, buyer, Some(part), None, None);
            var left := r.value.residual.value;
            && Find(m1.offers, left.id) == Some(left) && left.energy > 0.0
            && Find(m.offers, id).Some? && Find(m.offers, id).value.energy > 0.0
            && left.Rate() == Find(m.offers, id).value.Rate()
  {
    OfferAcceptedIff(cfg, m, id, buyer, Some(part), None, None);
    AcceptedOfferEffect(cfg, m, id, buyer, Some(part), None, None);
    hide AcceptOffer, RequestedEnergy, OfferTradePrice;
    var o := Find(m.offers, id).value;
    var e := RequestedEnergy(Some(part), o.energy);
    FreshOffer(m.offers, m.nextId);
    FindBookAfter(m.offers, id, Remainder(o, e, OriginalOfferPrice(o), m.nextId));
    RequestTwice(e, o.energy);
    ResidualRates(o, e, OriginalOfferPrice(o), m.nextId);
  }

  lemma RequestTwice(e: real, available: real)
    ensures RequestedEnergy(Some(e), available) == e || RequestedEnergy(Some(e), available) == available
  {
  }
}
