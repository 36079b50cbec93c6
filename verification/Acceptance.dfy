/** When a single acceptance, or the acceptance of a matched pair, goes through, and what it
    leaves behind when it does not. */
module Acceptance {
  import opened Numeric
  import opened Books
  import opened Fees
  import opened MarketState

  ghost predicate SameBook(b: Book, c: Book) {
    forall k :: Find(b, k) == Find(c, k)
  }

  // Everything but the offers, the id supply, the flag and the log is as before.
  ghost predicate SameLedger(m: Market, m': Market) {
    && m'.bids == m.bids && m'.trades == m.trades && m'.marketFee == m.marketFee
    && m'.tradedPrice == m.tradedPrice && m'.tradedEnergy == m.tradedEnergy
    && m'.energyOf == m.energyOf && m'.averagePrice == m.averagePrice
  }

  // ----- accepting an offer -----

  ghost predicate OfferPriced(cfg: Config, info: Option<TradeInfo>) {
    cfg.oneSided || info.None? || TradePriceAndFees(cfg.fee, info.value).Some?
  }

  ghost predicate OfferLegGoesThrough(cfg: Config, offer: Order, energy: Option<real>, info: Option<TradeInfo>) {
    var e := RequestedEnergy(energy, offer.energy);
    TOL <= e <= offer.energy + TOL && OfferPriced(cfg, info)
  }

  // The one way a failing acceptance is not undone: a part of the offer was asked for, the offer
  // was already split, and only then the fee class turned out to have no price.
  ghost predicate StrandsResidual(cfg: Config, offer: Order, energy: Option<real>, info: Option<TradeInfo>) {
    var e := RequestedEnergy(energy, offer.energy);
    TOL <= e < offer.energy - TOL && !OfferPriced(cfg, info)
  }

  ghost predicate Strands(cfg: Config, m: Market, id: nat, energy: Option<real>, info: Option<TradeInfo>) {
    !m.readonly && Find(m.offers, id).Some? && StrandsResidual(cfg, Find(m.offers, id).value, energy, info)
  }

  lemma OfferAcceptedIff(cfg: Config, m: Market, id: nat, buyer: Trader, energy: Option<real>,
                         info: Option<TradeInfo>, bid: Option<Order>)
    requires Valid(m)
    ensures AcceptOffer(cfg, m, id, buyer, energy, info, bid).1.Ok? <==>
            !m.readonly && Find(m.offers, id).Some? && OfferLegGoesThrough(cfg, Find(m.offers, id).value, energy, info)
  {
  }

  // A failing accept_offer is all-or-nothing exactly when it does not strand a residual; when it
  // does, the book has gained the residual's energy.
  lemma FailedAcceptOfferIsAtomicIff(cfg: Config, m: Market, id: nat, buyer: Trader, energy: Option<real>,
                                     info: Option<TradeInfo>, bid: Option<Order>)
    requires Valid(m) && AcceptOffer(cfg, m, id, buyer, energy, info, bid).1.Err?
    ensures var m' := AcceptOffer(cfg, m, id, buyer, energy, info, bid).0;
            var stranded := Strands(cfg, m, id, energy, info);
            && SameLedger(m, m')
            && (SameBook(m.offers, m'.offers) <==> !stranded)
            && Energy(m'.offers) == Energy(m.offers) +
                 if stranded then Find(m.offers, id).value.energy - energy.value else 0.0
  {
    hide AcceptedPiece, TradePriceAndFees, Pop;
    if !m.readonly && Find(m.offers, id).Some? {
      var o, rest := Find(m.offers, id).value, Pop(m.offers, id);
      var e := RequestedEnergy(energy, o.energy);
      var residual := ResidualPiece(o, e, OriginalOfferPrice(o), m.nextId);
      FindIn(m.offers, id);
      AfterPop(m.offers, id);
      AfterAppend(rest, o);
      if StrandsResidual(cfg, o, energy, info) {
        FreshOffer(m.offers, m.nextId);
        AfterAppend(rest + [o], residual);
        assert rest + [o] + [residual] == rest + [o, residual];
        assert Find(rest + [o, residual], m.nextId) != Find(m.offers, m.nextId);
      }
    }
  }

  // A constant fee always has a price, so there nothing is ever stranded.
  lemma ConstantFeesNeverStrand(cfg: Config, offer: Order, energy: Option<real>, info: Option<TradeInfo>)
    requires cfg.fee.ConstantFee?
    ensures !StrandsResidual(cfg, offer, energy, info)
  {
  }

  // ----- accepting a bid -----

  ghost predicate BidLegGoesThrough(cfg: Config, bid: Order, energy: Option<real>, info: TradeInfo)
    requires bid.energy > 0.0
  {
    var e := RequestedEnergy(energy, bid.energy);
    && 0.0 < e <= bid.energy + TOL
    && (e < bid.energy - TOL ==> e > TOL && bid.price >= 0.0)
    && TradePriceAndFees(cfg.fee, info).Some?
  }

  ghost predicate LosesBid(cfg: Config, m: Market, bid: Order, energy: Option<real>, info: TradeInfo)
    requires Valid(m)
  {
    Find(m.bids, bid.id).Some? &&
    (assert OpenBid(Find(m.bids, bid.id).value, m.nextId);
     !BidLegGoesThrough(cfg, Find(m.bids, bid.id).value, energy, info))
  }

  // Nothing restores a bid whose acceptance fails: it is gone, and so is its energy, save for a
  // residual that had already been cut off.
  lemma BidAcceptedIff(cfg: Config, m: Market, bid: Order, energy: Option<real>, seller: Trader,
                       info: TradeInfo, offer: Option<Order>)
    requires Valid(m)
    ensures var (m', r) := AcceptBid(cfg, m, bid, energy, seller, info, offer);
            && (r.Ok? <==> Find(m.bids, bid.id).Some? &&
                           BidLegGoesThrough(cfg, Find(m.bids, bid.id).value, energy, info))
            && (r.Err? && Find(m.bids, bid.id).Some? ==>
                  Find(m'.bids, bid.id).None? && Energy(m'.bids) < Energy(m.bids) &&
                  SameLedger(m.(bids := m'.bids), m'))
  {
    if Find(m.bids, bid.id).Some? {
      var b := Find(m.bids, bid.id).value;
      var e := RequestedEnergy(energy, b.energy);
      FindIn(m.bids, bid.id);
      AfterPop(m.bids, bid.id);
      AcceptBidBooks(cfg, m, bid, energy, seller, info, offer);
      FreshBid(Pop(m.bids, bid.id), m.nextId);
      AfterAppend(Pop(m.bids, bid.id), ResidualPiece(b, e, bid.originalPrice, m.nextId));
      AcceptedPriceSign(b, e);
    }
  }

  // The price check comes before the adaptation, so a bid of price zero is posted at its original
  // price, whatever that is. A posted bid has a price that is not negative exactly otherwise.
  lemma PostedBidPriceIff(cfg: Config, m: Market, price: real, energy: real, buyer: Trader, bidId: Option<nat>,
                          originalPrice: Option<real>, dispatch: bool, adaptPrice: bool, timeSlot: int)
    ensures var r := PostBid(cfg, m, price, energy, buyer, bidId, originalPrice, dispatch, adaptPrice, timeSlot).1;
            && (r.Ok? <==> energy > TOL && price >= 0.0)
            && (r.Ok? ==>
                  (r.value.price >= 0.0 <==>
                   !adaptPrice || cfg.fee.ConstantFee? || price > 0.0 || originalPrice.None? ||
                   originalPrice.value >= 0.0))
  {
    if energy > TOL && price == 0.0 && originalPrice.Some? {
      assert originalPrice.value / energy * energy == originalPrice.value;
    }
  }

  // A bid below zero can only be taken whole: every request for a part of it loses it.
  lemma PartOfNegativeBidIsLost(cfg: Config, m: Market, bid: Order, energy: Option<real>, seller: Trader,
                                info: TradeInfo, offer: Option<Order>)
    requires Valid(m) && Find(m.bids, bid.id).Some? && Find(m.bids, bid.id).value.price < 0.0
    requires RequestedEnergy(energy, Find(m.bids, bid.id).value.energy) < Find(m.bids, bid.id).value.energy - TOL
    ensures var (m', r) := AcceptBid(cfg, m, bid, energy, seller, info, offer);
            r.Err? && Find(m'.bids, bid.id).None? && LosesBid(cfg, m, bid, energy, info)
  {
    BidAcceptedIff(cfg, m, bid, energy, seller, info, offer);
  }

  lemma AcceptedPriceSign(b: Order, e: real)
    requires b.energy > 0.0
    ensures e > 0.0 ==> (b.price * (e / b.energy) < 0.0 <==> b.price < 0.0)
  {
    if e > 0.0 {
      var share := e / b.energy;
      assert share > 0.0;
      if b.price < 0.0 {
        assert b.price * share < 0.0;
      } else {
        assert b.price * share >= 0.0;
      }
    }
  }

  // ----- accepting a matched pair -----

  // What stays open of an order after `selected` was requested of it.
  function Remainder(o: Order, selected: real, originalPrice: real, freshId: nat): Option<Order>
    requires o.energy > 0.0
  {
    var e := RequestedEnergy(Some(selected), o.energy);
    if o.energy - e > TOL then Some(ResidualPiece(o, e, originalPrice, freshId)) else None
  }

  function BookAfter(b: Book, id: nat, remainder: Option<Order>): Book {
    Pop(b, id) + if remainder.Some? then [remainder.value] else []
  }

  lemma FindBookAfter(b: Book, id: nat, remainder: Option<Order>)
    requires Distinct(b) && (remainder.Some? ==> Find(b, remainder.value.id).None?)
    ensures Distinct(BookAfter(b, id, remainder))
    ensures forall k :: Find(BookAfter(b, id, remainder), k) ==
              if remainder.Some? && k == remainder.value.id then remainder
              else if k == id then None else Find(b, k)
    ensures Energy(BookAfter(b, id, remainder)) ==
            Energy(b) - (if Find(b, id).Some? then Find(b, id).value.energy else 0.0)
                      + (if remainder.Some? then remainder.value.energy else 0.0)
  {
    AfterPop(b, id);
    if remainder.Some? {
      AfterAppend(Pop(b, id), remainder.value);
    } else {
      assert Pop(b, id) + [] == Pop(b, id);
    }
  }

  // The pair is open in the market and the selected energy fits into both orders.
  ghost predicate OpenPair(m: Market, bid: Order, offer: Order, selected: real) {
    && Valid(m) && !m.readonly
    && Find(m.offers, offer.id) == Some(offer) && Find(m.bids, bid.id) == Some(bid)
    && 0.0 < selected <= offer.energy && selected <= bid.energy
  }

  // A pair completes exactly when both legs go through on their own. If only the offer's does,
  // its trade stays booked although the pair fails, and the bid is lost.
  lemma PairCompletesIff(cfg: Config, m: Market, bid: Order, offer: Order, info: TradeInfo, selected: real)
    requires OpenPair(m, bid, offer, selected)
    ensures var (m', r) := AcceptPair(cfg, m, bid, offer, info, selected);
            var offerLeg := OfferLegGoesThrough(cfg, offer, Some(selected), Some(info));
            var bidLeg := bid.energy > 0.0 && BidLegGoesThrough(cfg, bid, Some(selected), info);
            && (r.Ok? <==> offerLeg && bidLeg)
            && (|m'.trades| == |m.trades| + (if offerLeg then 1 else 0))
            && (offerLeg && !bidLeg ==> Find(m'.bids, bid.id).None?)
  {
    var (m1, r1) := AcceptOffer(cfg, m, offer.id, bid.trader, Some(selected), Some(info), Some(bid));
    OfferAcceptedIff(cfg, m, offer.id, bid.trader, Some(selected), Some(info), Some(bid));
    if r1.Err? {
      FailedAcceptOfferIsAtomicIff(cfg, m, offer.id, bid.trader, Some(selected), Some(info), Some(bid));
    } else {
      AcceptedOfferEffect(cfg, m, offer.id, bid.trader, Some(selected), Some(info), Some(bid));
      ValidAfterAcceptOffer(cfg, m, offer.id, bid.trader, Some(selected), Some(info), Some(bid));
      BidAcceptedIff(cfg, m1, bid, Some(selected), offer.trader, info, Some(offer));
      if AcceptBid(cfg, m1, bid, Some(selected), offer.trader, info, Some(offer)).1.Ok? {
        AcceptedBidEffect(cfg, m1, bid, Some(selected), offer.trader, info, Some(offer));
      }
    }
  }

  // A validated pair of more than TOL, with a price and a bid that is not negative, completes.
  lemma ValidatedPairCompletes(cfg: Config, m: Market, bid: Order, offer: Order, info: TradeInfo, selected: real)
    requires OpenPair(m, bid, offer, selected) && selected > TOL && bid.price >= 0.0
    requires TradePriceAndFees(cfg.fee, info).Some?
    ensures AcceptPair(cfg, m, bid, offer, info, selected).1.Ok?
  {
    PairCompletesIff(cfg, m, bid, offer, info, selected);
  }

  // At exactly TOL the offer side takes the trade and the bid side refuses it.
  lemma TolerancePairHalfCompletes(cfg: Config, m: Market, bid: Order, offer: Order, info: TradeInfo)
    requires OpenPair(m, bid, offer, TOL) && TradePriceAndFees(cfg.fee, info).Some?
    requires 3.0 * TOL < bid.energy <= MAX_ENERGY && 3.0 * TOL < offer.energy <= MAX_ENERGY
    ensures var (m', r) := AcceptPair(cfg, m, bid, offer, info, TOL);
            r.Err? && |m'.trades| == |m.trades| + 1 && Find(m'.bids, bid.id).None?
  {
    assert RequestedEnergy(Some(TOL), bid.energy) == TOL;
    assert RequestedEnergy(Some(TOL), offer.energy) == TOL;
    PairCompletesIff(cfg, m, bid, offer, info, TOL);
  }

  // What a successful accept_offer does.
  lemma AcceptedOfferEffect(cfg: Config, m: Market, id: nat, buyer: Trader, energy: Option<real>,
                            info: Option<TradeInfo>, bid: Option<Order>)
    requires Valid(m) && AcceptOffer(cfg, m, id, buyer, energy, info, bid).1.Ok?
    ensures var (m', r) := AcceptOffer(cfg, m, id, buyer, energy, info, bid);
            var o := Find(m.offers, id).value;
            var e := RequestedEnergy(energy, o.energy);
            var left := Remainder(o, e, OriginalOfferPrice(o), m.nextId);
            var t := r.value;
            && Find(m.offers, id).Some? && o.id == id && o.energy >= TOL
            && m'.bids == m.bids && m'.trades == m.trades + [t]
            && m'.offers == BookAfter(m.offers, id, left)
            && m'.nextId == m.nextId + (if left.Some? then 1 else 0)
            && m'.readonly == m.readonly && m'.noNewOrder == (m.noNewOrder && left.None?)
            && t.seller == o.trader && t.buyer == buyer && t.tradedEnergy == e && t.residual == left && t.bid == bid
            && t.offer.Some? && t.offer.value.id == id && t.offer.value.trader == o.trader
            && t.offer.value.energy == (if left.Some? then e else o.energy)
            && t.timeSlot == o.timeSlot
            && OfferTradePrice(cfg, 1.0, e, if info.Some? then info.value.tradeRate else o.Rate(), info,
                               OriginalOfferPrice(o)) == Some((t.feePrice, t.tradePrice))
            && m'.events == m.events +
                 (if left.Some? then [OfferSplit(o, AcceptedPiece(o, e, OriginalOfferPrice(o)), left.value)] else []) +
                 [OfferTraded(t)]
  {
    FindIn(m.offers, id);
    var o := Find(m.offers, id).value;
    var e := RequestedEnergy(energy, o.energy);
    assert RequestedEnergy(Some(e), o.energy) == e;
    assert Pop(m.offers, id) + [] == Pop(m.offers, id);
    assert m.events + [] == m.events;
  }

  // What a successful accept_bid does.
  lemma AcceptedBidEffect(cfg: Config, m: Market, bid: Order, energy: Option<real>, seller: Trader,
                          info: TradeInfo, offer: Option<Order>)
    requires Valid(m) && AcceptBid(cfg, m, bid, energy, seller, info, offer).1.Ok?
    ensures var (m', r) := AcceptBid(cfg, m, bid, energy, seller, info, offer);
            var b := Find(m.bids, bid.id).value;
            var e := RequestedEnergy(energy, b.energy);
            var left := Remainder(b, e, bid.originalPrice, m.nextId);
            var t := r.value;
            && Find(m.bids, bid.id).Some? && b.id == bid.id && b.energy > TOL
            && m'.offers == m.offers && m'.trades == m.trades + (if offer.None? then [t] else [])
            && m'.bids == BookAfter(m.bids, bid.id, left)
            && m'.nextId == m.nextId + (if left.Some? then 1 else 0)
            && m'.readonly == m.readonly && m'.noNewOrder == (m.noNewOrder && left.None?)
            && t.seller == seller && t.tradedEnergy == e && t.residual == left && t.offer == offer
            && t.bid.Some? && t.bid.value.id == bid.id
            && t.buyer == (if left.Some? then b.trader else bid.trader)
            && t.bid.value.energy == (if left.Some? then e else bid.energy)
            && BidTradePrice(cfg, e, info) == Some((t.feePrice, t.tradePrice))
            && m'.events == m.events +
                 (if left.Some? then [BidSplit(b, AcceptedPiece(b, e, bid.originalPrice), left.value)] else []) +
                 [BidTraded(t)] + (if left.Some? then [BidPosted(left.value)] else [])
  {
    FindIn(m.bids, bid.id);
    var b := Find(m.bids, bid.id).value;
    var e := RequestedEnergy(energy, b.energy);
    assert RequestedEnergy(Some(e), b.energy) == e;
    assert Pop(m.bids, bid.id) + [] == Pop(m.bids, bid.id);
    assert m.events + [] == m.events;
  }

  // Snapping moves the traded energy by no more than TOL, given energies of a plausible size.
  lemma SnapIsSmall(selected: real, available: real)
    requires 0.0 < selected <= available <= MAX_ENERGY
    ensures var e := RequestedEnergy(Some(selected), available);
            selected <= e <= selected + TOL && (e != selected ==> e == available)
  {
  }

  // A completed pair, as two successful steps.
  lemma PairSteps(cfg: Config, m: Market, bid: Order, offer: Order, info: TradeInfo, selected: real)
    returns (m1: Market)
    requires Valid(m) && AcceptPair(cfg, m, bid, offer, info, selected).1.Ok?
    ensures Valid(m1)
    ensures var (m', r) := AcceptPair(cfg, m, bid, offer, info, selected);
            && AcceptOffer(cfg, m, offer.id, bid.trader, Some(selected), Some(info), Some(bid)) == (m1, Ok(r.value.0))
            && AcceptBid(cfg, m1, bid, Some(selected), offer.trader, info, Some(offer)) == (m', Ok(r.value.1))
  {
    m1 := AcceptOffer(cfg, m, offer.id, bid.trader, Some(selected), Some(info), Some(bid)).0;
    ValidAfterAcceptOffer(cfg, m, offer.id, bid.trader, Some(selected), Some(info), Some(bid));
  }

  // The terms a leg is settled on: who trades how much, at which rates.
  ghost predicate SettledOn(t: Trade, seller: Trader, buyer: Trader, energy: real, rates: Priced) {
    && t.seller == seller && t.buyer == buyer && t.tradedEnergy == energy
    && t.feePrice == rates.feeRate * energy && t.tradePrice == energy * rates.tradeRate
  }

  lemma OfferLegTerms(cfg: Config, m: Market, bid: Order, offer: Order, info: TradeInfo, selected: real)
    requires OpenPair(m, bid, offer, selected) && !cfg.oneSided
    requires AcceptOffer(cfg, m, offer.id, bid.trader, Some(selected), Some(info), Some(bid)).1.Ok?
    ensures var (m1, r) := AcceptOffer(cfg, m, offer.id, bid.trader, Some(selected), Some(info), Some(bid));
            && TradePriceAndFees(cfg.fee, info).Some?
            && SettledOn(r.value, offer.trader, bid.trader, RequestedEnergy(Some(selected), offer.energy),
                         TradePriceAndFees(cfg.fee, info).value)
            && m1.trades == m.trades + [r.value] && m1.bids == m.bids
  {
    hide AcceptOffer, TradePriceAndFees, RequestedEnergy, ResidualPiece, AcceptedPiece;
    AcceptedOfferEffect(cfg, m, offer.id, bid.trader, Some(selected), Some(info), Some(bid));
  }

  lemma BidLegTerms(cfg: Config, m: Market, bid: Order, offer: Order, info: TradeInfo, selected: real)
    requires Valid(m) && Find(m.bids, bid.id) == Some(bid)
    requires AcceptBid(cfg, m, bid, Some(selected), offer.trader, info, Some(offer)).1.Ok?
    ensures var (m1, r) := AcceptBid(cfg, m, bid, Some(selected), offer.trader, info, Some(offer));
            && TradePriceAndFees(cfg.fee, info).Some?
            && SettledOn(r.value, offer.trader, bid.trader, RequestedEnergy(Some(selected), bid.energy),
                         TradePriceAndFees(cfg.fee, info).value)
            && m1.trades == m.trades
  {
    hide AcceptBid, TradePriceAndFees, RequestedEnergy, ResidualPiece, AcceptedPiece;
    AcceptedBidEffect(cfg, m, bid, Some(selected), offer.trader, info, Some(offer));
  }

  // Both legs of a pair are between the same traders and settled at the same rates; only the
  // offer leg is booked.
  lemma LegsAgree(cfg: Config, m: Market, bid: Order, offer: Order, info: TradeInfo, selected: real)
    requires OpenPair(m, bid, offer, selected) && !cfg.oneSided
    requires AcceptPair(cfg, m, bid, offer, info, selected).1.Ok?
    ensures var (m', r) := AcceptPair(cfg, m, bid, offer, info, selected);
            && TradePriceAndFees(cfg.fee, info).Some?
            && var rates := TradePriceAndFees(cfg.fee, info).value;
            && SettledOn(r.value.0, offer.trader, bid.trader, RequestedEnergy(Some(selected), offer.energy), rates)
            && SettledOn(r.value.1, offer.trader, bid.trader, RequestedEnergy(Some(selected), bid.energy), rates)
            && m'.trades == m.trades + [r.value.0]
  {
    hide AcceptOffer, AcceptBid;
    var m1 := PairSteps(cfg, m, bid, offer, info, selected);
    OfferLegTerms(cfg, m, bid, offer, info, selected);
    BidLegTerms(cfg, m1, bid, offer, info, selected);
  }
}
