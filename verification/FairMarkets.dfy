/** Markets without mishaps: with constant fees, or with orders and trade infos whose rates a
    caller can check beforehand, no acceptance strands a residual; if no less than TOL is asked
    for either, none loses a bid. */
module FairMarkets {
  import opened Numeric
  import opened Books
  import opened Fees
  import opened MarketState
  import opened Acceptance
  import opened MatchingEngine
  import opened Runs
  import opened Mishaps
  import opened Postings

  // Constant fees ask nothing of an offer; a percentage fee asks for a price above zero if the
  // device asked for one.
  predicate FairOffer(fee: FeeClass, o: Order) {
    fee.ConstantFee? || o.originalPrice == 0.0 || (o.originalPrice > 0.0 && o.price > 0.0)
  }

  // A percentage fee asks of a bid that it has not grown on its way.
  predicate FairBid(fee: FeeClass, b: Order) {
    && b.price >= 0.0
    && (fee.ConstantFee? || b.originalPrice == 0.0 || (b.originalPrice > 0.0 && b.price <= b.originalPrice))
  }

  ghost predicate FairMarket(fee: FeeClass, m: Market) {
    && (forall k :: Find(m.offers, k).Some? ==> FairOffer(fee, Find(m.offers, k).value))
    && (forall k :: Find(m.bids, k).Some? ==> FairBid(fee, Find(m.bids, k).value))
  }

  predicate FairInfo(fee: FeeClass, info: TradeInfo) {
    fee.ConstantFee? ||
    (&& (info.originalBidRate == 0.0 || info.propagatedBidRate / info.originalBidRate <= 1.0)
     && (info.originalOfferRate == 0.0 || info.propagatedOfferRate / info.originalOfferRate > 0.0))
  }

  // The original price of a residual bid is taken from the bid that was handed over.
  ghost predicate FairRequest(fee: FeeClass, m: Market, bid: Order) {
    fee.ConstantFee? ||
    (Find(m.bids, bid.id).Some? ==> bid.originalPrice == Find(m.bids, bid.id).value.originalPrice)
  }

  // What keeps a market fair. Batches and ticks need nothing.
  ghost predicate FairAction(fee: FeeClass, m: Market, a: Action) {
    fee.ConstantFee? ||
    match a
    case PostsOffer(price, _, _, original, _) =>
      fee.rate >= 0.0 && price >= 0.0 &&
      (original.None? || original.value == 0.0 || (original.value > 0.0 && price > 0.0))
    case PostsBid(price, _, _, original, _) => original.None? || price <= original.value
    case AcceptsOffer(_, _, _, info) => info.None? || FairInfo(fee, info.value)
    case AcceptsBid(bid, _, _, _) => FairRequest(fee, m, bid)
    case _ => true
  }

  ghost predicate Substantial(recs: seq<Recommendation>) {
    forall rec :: rec in recs ==> rec.selectedEnergy > TOL
  }

  ghost predicate SubstantialMatcher(matcher: Matcher) {
    forall offers, bids :: Substantial(matcher(offers, bids))
  }

  // What loses no bid in a fair market: more than TOL is asked for, and no more than is there.
  ghost predicate CarefulAction(fee: FeeClass, matcher: Matcher, m: Market, a: Action) {
    match a
    case AcceptsBid(bid, requested, _, info) =>
      && FairInfo(fee, info)
      && (requested.Some? && Find(m.bids, bid.id).Some? ==>
            TOL < requested.value <= Find(m.bids, bid.id).value.energy)
    case Matches(recs) => Substantial(recs)
    case Ticks => SubstantialMatcher(matcher)
    case _ => true
  }

  // ----- rates -----

  lemma FairInfoIsPriced(fee: FeeClass, info: TradeInfo)
    requires FairInfo(fee, info)
    ensures TradePriceAndFees(fee, info).Some?
  {
    if fee.PercentageFee? {
      FeesAreDefined(fee, info);
    }
  }

  lemma RatioOfRates(price: real, original: real, energy: real)
    requires energy > 0.0 && original > 0.0
    ensures original / energy > 0.0
    ensures (price / energy) / (original / energy) == price / original
  {
    assert original / energy > 0.0;
    assert (price / energy) == (price / original) * (original / energy);
  }

  lemma RatioBounds(price: real, original: real)
    requires original > 0.0
    ensures price <= original ==> price / original <= 1.0
    ensures price > 0.0 ==> price / original > 0.0
  {
  }

  // Fair orders are cleared at rates the fee class can price.
  lemma FairOrdersGiveFairInfo(cfg: Config, offer: Order, bid: Order, clearingRate: real)
    requires offer.energy > 0.0 && bid.energy > 0.0 && FairOffer(cfg.fee, offer) && FairBid(cfg.fee, bid)
    ensures var info := ClearingInfo(cfg, offer, bid, clearingRate); info.Some? ==> FairInfo(cfg.fee, info.value)
  {
    if cfg.fee.PercentageFee? {
      assert bid.Rate() + (bid.originalPrice - bid.price) / bid.energy == bid.originalPrice / bid.energy;
      if bid.originalPrice != 0.0 {
        RatioOfRates(bid.price, bid.originalPrice, bid.energy);
        RatioBounds(bid.price, bid.originalPrice);
      }
      if offer.originalPrice != 0.0 {
        RatioOfRates(offer.price, offer.originalPrice, offer.energy);
        RatioBounds(offer.price, offer.originalPrice);
      }
    }
  }

  // ----- fairness is kept -----

  lemma ScaledOrder(share: real, price: real, original: real)
    requires 0.0 < share
    ensures (price >= 0.0 ==> share * price >= 0.0) && (price > 0.0 ==> share * price > 0.0)
    ensures price <= original ==> share * price <= share * original
  {
    if price <= original {
      assert share * (original - price) >= 0.0;
    }
  }

  lemma FairResiduals(fee: FeeClass, o: Order, energy: real, freshId: nat)
    requires 0.0 < energy < o.energy
    ensures o.price >= 0.0 && FairOffer(fee, o) ==>
              FairOffer(fee, ResidualPiece(o, energy, OriginalOfferPrice(o), freshId))
    ensures FairBid(fee, o) ==> FairBid(fee, ResidualPiece(o, energy, o.originalPrice, freshId))
    ensures o.price >= 0.0 ==> ResidualPiece(o, energy, 0.0, freshId).price >= 0.0
  {
    ShareInside(energy, o.energy);
    var rest := 1.0 - energy / o.energy;
    assert (o.energy - energy) / o.energy == rest;
    ScaledOrder(rest, o.price, o.originalPrice);
    ScaledOrder(rest, o.originalPrice, o.originalPrice);
  }

  lemma FairAfterPostOffer(cfg: Config, m: Market, price: real, energy: real, seller: Trader,
                           originalPrice: Option<real>, timeSlot: int)
    requires Valid(m) && FairMarket(cfg.fee, m)
    requires FairAction(cfg.fee, m, PostsOffer(price, energy, seller, originalPrice, timeSlot))
    ensures FairMarket(cfg.fee, PostOffer(cfg, m, price, energy, seller, None, originalPrice, true, true, timeSlot).0)
  {
    var (m', r) := PostOffer(cfg, m, price, energy, seller, None, originalPrice, true, true, timeSlot);
    if r.Ok? {
      FreshOffer(m.offers, m.nextId);
      PutFresh(m.offers, r.value);
      AfterAppend(m.offers, r.value);
      if cfg.fee.PercentageFee? {
        OfferPriceIs(cfg.fee, price, r.value.originalPrice, energy);
      }
    }
  }

  lemma FairAfterPostBid(cfg: Config, m: Market, price: real, energy: real, buyer: Trader,
                         originalPrice: Option<real>, timeSlot: int)
    requires Valid(m) && FairMarket(cfg.fee, m)
    requires FairAction(cfg.fee, m, PostsBid(price, energy, buyer, originalPrice, timeSlot))
    ensures FairMarket(cfg.fee, PostBid(cfg, m, price, energy, buyer, None, originalPrice, true, true, timeSlot).0)
  {
    var (m', r) := PostBid(cfg, m, price, energy, buyer, None, originalPrice, true, true, timeSlot);
    if r.Ok? {
      FreshBid(m.bids, m.nextId);
      PutFresh(m.bids, r.value);
      AfterAppend(m.bids, r.value);
      BidPriceIs(cfg.fee, price, r.value.originalPrice, energy);
    }
  }

  lemma FairAfterAcceptOffer(cfg: Config, m: Market, id: nat, buyer: Trader, energy: Option<real>,
                             info: Option<TradeInfo>, bid: Option<Order>)
    requires Valid(m) && FairMarket(cfg.fee, m) && !Strands(cfg, m, id, energy, info)
    ensures FairMarket(cfg.fee, AcceptOffer(cfg, m, id, buyer, energy, info, bid).0)
  {
    hide AcceptOffer, FairOffer, FairBid, AcceptedPiece, OfferTradePrice, OriginalOfferPrice;
    OfferAcceptedIff(cfg, m, id, buyer, energy, info, bid);
    if AcceptOffer(cfg, m, id, buyer, energy, info, bid).1.Ok? {
      AcceptedOfferEffect(cfg, m, id, buyer, energy, info, bid);
      var o := Find(m.offers, id).value;
      var e := RequestedEnergy(energy, o.energy);
      FreshOffer(m.offers, m.nextId);
      FindBookAfter(m.offers, id, Remainder(o, e, OriginalOfferPrice(o), m.nextId));
      if o.energy - e > TOL {
        FairResiduals(cfg.fee, o, e, m.nextId);
      }
    } else {
      FailedAcceptOfferIsAtomicIff(cfg, m, id, buyer, energy, info, bid);
    }
  }

  lemma FairAfterAcceptBid(cfg: Config, m: Market, bid: Order, energy: Option<real>, seller: Trader,
                           info: TradeInfo, offer: Option<Order>)
    requires Valid(m) && FairMarket(cfg.fee, m) && FairRequest(cfg.fee, m, bid)
    ensures FairMarket(cfg.fee, AcceptBid(cfg, m, bid, energy, seller, info, offer).0)
  {
    hide AcceptBid, FairOffer, AcceptedPiece;
    AfterPop(m.bids, bid.id);
    if Find(m.bids, bid.id).Some? {
      AcceptBidBooks(cfg, m, bid, energy, seller, info, offer);
      var b := Find(m.bids, bid.id).value;
      var e := RequestedEnergy(energy, b.energy);
      FreshBid(Pop(m.bids, bid.id), m.nextId);
      AfterAppend(Pop(m.bids, bid.id), ResidualPiece(b, e, bid.originalPrice, m.nextId));
      if e > TOL && b.energy - e > TOL {
        FairResiduals(cfg.fee, b, e, m.nextId);
      }
    } else {
      BidUnknown(cfg, m, bid, energy, seller, info, offer);
    }
  }

  lemma BidUnknown(cfg: Config, m: Market, bid: Order, energy: Option<real>, seller: Trader,
                   info: TradeInfo, offer: Option<Order>)
    requires Valid(m) && Find(m.bids, bid.id).None?
    ensures AcceptBid(cfg, m, bid, energy, seller, info, offer).0 == m
  {
  }

  // ----- nothing goes wrong -----

  lemma PricedStrandsNothing(cfg: Config, m: Market, id: nat, energy: Option<real>, info: Option<TradeInfo>)
    requires info.None? || FairInfo(cfg.fee, info.value)
    ensures !Strands(cfg, m, id, energy, info)
  {
    if info.Some? {
      FairInfoIsPriced(cfg.fee, info.value);
    }
  }

  lemma CarefulRequestLosesNothing(cfg: Config, m: Market, bid: Order, requested: Option<real>, info: TradeInfo)
    requires Valid(m) && FairMarket(cfg.fee, m) && FairInfo(cfg.fee, info)
    requires requested.Some? && Find(m.bids, bid.id).Some? ==>
               TOL < requested.value <= Find(m.bids, bid.id).value.energy
    ensures !LosesBid(cfg, m, bid, requested, info)
  {
    hide TradePriceAndFees;
    FairInfoIsPriced(cfg.fee, info);
  }

  // With constant fees nothing is asked of the market for this; a fair one stays fair, besides.
  ghost predicate StrandsNothing(fee: FeeClass, m: Market, m': Market, x: Mishap, careful: bool) {
    && (fee.ConstantFee? || FairMarket(fee, m) ==> !x.StrandedResidual?)
    && (FairMarket(fee, m) ==> FairMarket(fee, m') && (careful ==> x == NoMishap))
  }

  lemma FairAfterPair(cfg: Config, m: Market, bid: Order, offer: Order, info: TradeInfo, energy: real)
    requires Valid(m) && FairInfo(cfg.fee, info)
    requires Find(m.offers, offer.id) == Some(offer) && Find(m.bids, bid.id) == Some(bid) && energy <= bid.energy
    ensures StrandsNothing(cfg.fee, m, AcceptPair(cfg, m, bid, offer, info, energy).0,
                           PairMishap(cfg, m, bid, offer, info, energy), energy > TOL)
  {
    hide AcceptOffer, AcceptBid, FairMarket, LosesBid, Strands, TradePriceAndFees;
    PricedStrandsNothing(cfg, m, offer.id, Some(energy), Some(info));
    if FairMarket(cfg.fee, m) {
      FairAfterAcceptOffer(cfg, m, offer.id, bid.trader, Some(energy), Some(info), Some(bid));
      ValidAfterAcceptOffer(cfg, m, offer.id, bid.trader, Some(energy), Some(info), Some(bid));
      var m1 := AcceptOffer(cfg, m, offer.id, bid.trader, Some(energy), Some(info), Some(bid)).0;
      if AcceptOffer(cfg, m, offer.id, bid.trader, Some(energy), Some(info), Some(bid)).1.Ok? {
        AcceptedOfferEffect(cfg, m, offer.id, bid.trader, Some(energy), Some(info), Some(bid));
        FairAfterAcceptBid(cfg, m1, bid, Some(energy), offer.trader, info, Some(offer));
      }
      if energy > TOL {
        CarefulRequestLosesNothing(cfg, m, bid, Some(energy), info);
      }
    }
  }

  lemma FairAfterMatchOne(cfg: Config, m: Market, rec: Recommendation)
    requires Valid(m)
    ensures var out := MatchOne(cfg, m, rec);
            StrandsNothing(cfg.fee, m, if out.Skipped? then m else out.market, MatchOneMishap(cfg, m, rec),
                           rec.selectedEnergy > TOL)
  {
    hide AcceptPair, PairMishap, FairOffer, FairBid, FairInfo, ClearingInfo;
    ResolvedIsOpen(m, rec.offerId, rec.offerOrigin, rec.bidId, rec.bidOrigin);
    var offer := Resolve(m.offers, rec.offerId, rec.offerOrigin);
    var bid := Resolve(m.bids, rec.bidId, rec.bidOrigin);
    if offer.Some? && bid.Some? && ClearingInfo(cfg, offer.value, bid.value, rec.tradeRate).Some? &&
       (cfg.fee.ConstantFee? || FairMarket(cfg.fee, m)) {
      var info := ClearingInfo(cfg, offer.value, bid.value, rec.tradeRate).value;
      if cfg.fee.ConstantFee? {
        ConstantInfoIsFair(cfg.fee, info);
      } else {
        FairOrdersGiveFairInfo(cfg, offer.value, bid.value, rec.tradeRate);
      }
      FairAfterPair(cfg, m, bid.value, offer.value, info,
                    Min(Min(rec.selectedEnergy, offer.value.energy), bid.value.energy));
    }
  }

  lemma ConstantInfoIsFair(fee: FeeClass, info: TradeInfo)
    requires fee.ConstantFee?
    ensures FairInfo(fee, info)
  {
  }

  lemma {:induction false} FairAfterMatchAll(cfg: Config, m: Market, recs: seq<Recommendation>, traded: bool)
    requires Valid(m)
    ensures StrandsNothing(cfg.fee, m, MatchAll(cfg, m, recs, traded).0, MatchAllMishap(cfg, m, recs),
                           Substantial(recs))
    decreases |recs|
  {
    hide MatchOne, MatchOneMishap, FairMarket;
    if recs != [] {
      assert recs[0] in recs;
      FairAfterMatchOne(cfg, m, recs[0]);
      match MatchOne(cfg, m, recs[0])
      case Raised(_, _) =>
      case Skipped => FairAfterMatchAll(cfg, m, recs[1..], traded);
      case Traded(m1, ot, bt) =>
        ValidAfterMatchOne(cfg, m, recs[0]);
        FairAfterMatchAll(cfg, m1, Rewrite(recs[1..], ot, bt), true);
        if Substantial(recs) {
          RewriteStaysSubstantial(recs[1..], ot, bt);
        }
    }
  }

  lemma RewriteStaysSubstantial(recs: seq<Recommendation>, offerTrade: Trade, bidTrade: Trade)
    requires Substantial(recs)
    ensures Substantial(Rewrite(recs, offerTrade, bidTrade))
  {
  }

  lemma {:induction false} FairAfterLoop(cfg: Config, m: Market, matcher: Matcher)
    requires Valid(m)
    ensures StrandsNothing(cfg.fee, m, MatchUntilDone(cfg, m, matcher).0, LoopMishap(cfg, m, matcher),
                           SubstantialMatcher(matcher))
    decreases Units(m)
  {
    hide MatchAll, MatchAllMishap, Substantial, FairOffer, FairBid;
    var pairs := matcher(m.offers, m.bids);
    if pairs != [] {
      var (m1, r) := MatchAll(cfg, m, pairs, false);
      FairAfterMatchAll(cfg, m, pairs, false);
      ValidAfterMatchAll(cfg, m, pairs, false);
      if r == Ok(true) {
        RoundDropsUnits(cfg, m, pairs);
        FairAfterLoop(cfg, m1, matcher);
      }
    }
  }

  // A fair action keeps a fair market fair and strands nothing there, nor anywhere with constant
  // fees; a careful one loses no bid either.
  lemma FairStepStrandsNothing(cfg: Config, matcher: Matcher, m: Market, a: Action)
    requires Valid(m) && FairAction(cfg.fee, m, a)
    ensures StrandsNothing(cfg.fee, m, Step(cfg, matcher, m, a).0, StepMishap(cfg, matcher, m, a),
                           CarefulAction(cfg.fee, matcher, m, a))
  {
    hide AcceptOffer, AcceptBid, MatchAll, MatchUntilDone, PostOffer, PostBid, MatchAllMishap, LoopMishap,
         LosesBid, Strands, FairOffer, FairBid, Substantial;
    if !a.Matches? && !a.Ticks? && FairMarket(cfg.fee, m) {
      FairAfterSimpleAction(cfg, matcher, m, a);
    }
    match a
    case AcceptsOffer(id, _, energy, info) => PricedStrandsNothing(cfg, m, id, energy, info);
    case AcceptsBid(bid, energy, _, info) =>
      if FairMarket(cfg.fee, m) && CarefulAction(cfg.fee, matcher, m, a) {
        CarefulRequestLosesNothing(cfg, m, bid, energy, info);
      }
    case Matches(recs) => FairAfterMatchAll(cfg, m, recs, false);
    case Ticks =>
      if !m.noNewOrder {
        FairAfterLoop(cfg, m, matcher);
      }
    case _ =>
  }

  lemma FairAfterSimpleAction(cfg: Config, matcher: Matcher, m: Market, a: Action)
    requires Valid(m) && FairMarket(cfg.fee, m) && FairAction(cfg.fee, m, a) && !a.Matches? && !a.Ticks?
    ensures FairMarket(cfg.fee, Step(cfg, matcher, m, a).0)
  {
    hide AcceptOffer, AcceptBid, PostOffer, PostBid, Strands, FairOffer, FairBid;
    match a
    case PostsOffer(price, energy, trader, original, slot) =>
      FairAfterPostOffer(cfg, m, price, energy, trader, original, slot);
    case PostsBid(price, energy, trader, original, slot) =>
      FairAfterPostBid(cfg, m, price, energy, trader, original, slot);
    case DeletesOffer(id) => AfterPop(m.offers, id);
    case DeletesBid(id) => AfterPop(m.bids, id);
    case AcceptsOffer(id, trader, energy, info) =>
      PricedStrandsNothing(cfg, m, id, energy, info);
      FairAfterAcceptOffer(cfg, m, id, trader, energy, info, None);
    case AcceptsBid(bid, energy, trader, info) => FairAfterAcceptBid(cfg, m, bid, energy, trader, info, None);
    case AsksAverage =>
  }

  ghost predicate FairRun(cfg: Config, matcher: Matcher, m: Market, actions: seq<Action>)
    requires Valid(m)
    decreases |actions|
  {
    actions == [] ||
    (ValidAfterStep(cfg, matcher, m, actions[0]);
     FairAction(cfg.fee, m, actions[0]) && FairRun(cfg, matcher, Step(cfg, matcher, m, actions[0]).0, actions[1..]))
  }

  ghost predicate CarefulRun(cfg: Config, matcher: Matcher, m: Market, actions: seq<Action>)
    requires Valid(m)
    decreases |actions|
  {
    actions == [] ||
    (ValidAfterStep(cfg, matcher, m, actions[0]);
     CarefulAction(cfg.fee, matcher, m, actions[0]) &&
     CarefulRun(cfg, matcher, Step(cfg, matcher, m, actions[0]).0, actions[1..]))
  }

  // With constant fees every run is fair.
  lemma {:induction false} ConstantFeesAreFair(cfg: Config, matcher: Matcher, m: Market, actions: seq<Action>)
    requires Valid(m) && cfg.fee.ConstantFee?
    ensures FairRun(cfg, matcher, m, actions)
    decreases |actions|
  {
    hide Step;
    if actions != [] {
      ValidAfterStep(cfg, matcher, m, actions[0]);
      ConstantFeesAreFair(cfg, matcher, Step(cfg, matcher, m, actions[0]).0, actions[1..]);
    }
  }

  lemma {:induction false} FairRunStrandsNothing(cfg: Config, matcher: Matcher, m: Market, actions: seq<Action>)
    requires Valid(m) && FairMarket(cfg.fee, m) && FairRun(cfg, matcher, m, actions)
    ensures forall x :: x in MishapsOf(cfg, matcher, m, actions) ==> !x.StrandedResidual?
    ensures CarefulRun(cfg, matcher, m, actions) ==>
              forall x :: x in MishapsOf(cfg, matcher, m, actions) ==> x == NoMishap
    decreases |actions|
  {
    hide Step, StepMishap, FairMarket, FairAction, CarefulAction;
    if actions != [] {
      ValidAfterStep(cfg, matcher, m, actions[0]);
      FairStepStrandsNothing(cfg, matcher, m, actions[0]);
      FairRunStrandsNothing(cfg, matcher, Step(cfg, matcher, m, actions[0]).0, actions[1..]);
    }
  }
}
