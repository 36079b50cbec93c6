/** Skipping a market whose `no_new_order` flag is set loses no match. */
module Skipping {
  import opened Numeric
  import opened Books
  import opened Fees
  import opened MarketState
  import opened MatchingEngine
  import opened Runs

  // Which offer and bid a matching algorithm would match.
  type Relation = (Order, Order) -> bool

  ghost predicate AnyCrossing(crosses: Relation, offers: Book, bids: Book) {
    exists o, b :: o in offers && b in bids && crosses(o, b)
  }

  // A bid that pays what an offer of another trader asks.
  predicate Crossing(o: Order, b: Order) {
    o.energy > 0.0 && b.energy > 0.0 && o.trader.uuid != b.trader.uuid && b.Rate() >= o.Rate()
  }

  // A pair that the market takes at some rate: validation leaves TOL to either side.
  predicate Matchable(o: Order, b: Order) {
    o.energy > 0.0 && b.energy > 0.0 && o.trader.uuid != b.trader.uuid && o.Rate() <= b.Rate() + 2.0 * TOL
  }

  // The first recommendation is of open orders of two traders and passes validation.
  ghost predicate SoundHead(m: Market, rec: Recommendation)
    requires Valid(m)
  {
    && Find(m.offers, rec.offerId).Some? && Find(m.bids, rec.bidId).Some?
    && var o, b := Find(m.offers, rec.offerId).value, Find(m.bids, rec.bidId).value;
    && OpenOffer(o, m.nextId) && OpenBid(b, m.nextId)
    && o.trader.uuid != b.trader.uuid && ValidMatch(o, b, rec)
  }

  // The market does not turn down the first recommendation of the algorithm.
  ghost predicate Sound(matcher: Matcher) {
    forall m: Market {:trigger matcher(m.offers, m.bids)} :: Valid(m) && matcher(m.offers, m.bids) != [] ==>
      SoundHead(m, matcher(m.offers, m.bids)[0])
  }

  // It recommends something if some pair crosses ...
  ghost predicate Complete(crosses: Relation, matcher: Matcher) {
    forall m: Market {:trigger matcher(m.offers, m.bids)} ::
      Valid(m) && AnyCrossing(crosses, m.offers, m.bids) ==> matcher(m.offers, m.bids) != []
  }

  // ... and only then.
  ghost predicate Exact(crosses: Relation, matcher: Matcher) {
    forall m: Market {:trigger matcher(m.offers, m.bids)} ::
      Valid(m) && matcher(m.offers, m.bids) != [] ==> AnyCrossing(crosses, m.offers, m.bids)
  }

  // With the flag set nothing crosses.
  ghost predicate FlagIsHonest(crosses: Relation, m: Market) {
    m.noNewOrder ==> !AnyCrossing(crosses, m.offers, m.bids)
  }

  // If the flag is still set after an operation, it was set before and no order has been added.
  ghost predicate QuietlyShrunk(m: Market, m': Market) {
    m'.noNewOrder ==>
      && m.noNewOrder
      && (forall o :: o in m'.offers ==> o in m.offers)
      && (forall b :: b in m'.bids ==> b in m.bids)
  }

  lemma ShrinkingKeepsHonesty(crosses: Relation, m: Market, m': Market)
    requires FlagIsHonest(crosses, m) && QuietlyShrunk(m, m')
    ensures FlagIsHonest(crosses, m')
  {
  }

  lemma AcceptOfferShrinks(cfg: Config, m: Market, id: nat, buyer: Trader, energy: Option<real>,
                           info: Option<TradeInfo>, bid: Option<Order>)
    requires Valid(m)
    ensures QuietlyShrunk(m, AcceptOffer(cfg, m, id, buyer, energy, info, bid).0)
  {
    hide AcceptedPiece, ResidualPiece, OfferTradePrice, RequestedEnergy, OriginalOfferPrice, AddOrCreate, Pop;
    FindIn(m.offers, id);
    AfterPop(m.offers, id);
  }

  lemma AcceptBidShrinks(cfg: Config, m: Market, bid: Order, energy: Option<real>, seller: Trader,
                         info: TradeInfo, offer: Option<Order>)
    requires Valid(m)
    ensures QuietlyShrunk(m, AcceptBid(cfg, m, bid, energy, seller, info, offer).0)
  {
    hide AcceptedPiece, ResidualPiece, BidTradePrice, RequestedEnergy, AddOrCreate, Pop;
    AfterPop(m.bids, bid.id);
  }

  lemma MatchOneShrinks(cfg: Config, m: Market, rec: Recommendation)
    requires Valid(m) && !MatchOne(cfg, m, rec).Skipped?
    ensures QuietlyShrunk(m, MatchOne(cfg, m, rec).market)
  {
    hide AcceptOffer, AcceptBid;
    ResolvedIsOpen(m, rec.offerId, rec.offerOrigin, rec.bidId, rec.bidOrigin);
    var offer := Resolve(m.offers, rec.offerId, rec.offerOrigin);
    var bid := Resolve(m.bids, rec.bidId, rec.bidOrigin);
    if offer.Some? && bid.Some? && ClearingInfo(cfg, offer.value, bid.value, rec.tradeRate).Some? {
      var info := ClearingInfo(cfg, offer.value, bid.value, rec.tradeRate).value;
      var energy := Min(Min(rec.selectedEnergy, offer.value.energy), bid.value.energy);
      AcceptOfferShrinks(cfg, m, offer.value.id, bid.value.trader, Some(energy), Some(info), bid);
      ValidAfterAcceptOffer(cfg, m, offer.value.id, bid.value.trader, Some(energy), Some(info), bid);
      var m1 := AcceptOffer(cfg, m, offer.value.id, bid.value.trader, Some(energy), Some(info), bid).0;
      AcceptBidShrinks(cfg, m1, bid.value, Some(energy), offer.value.trader, info, offer);
    }
  }

  lemma {:induction false} MatchAllShrinks(cfg: Config, m: Market, recs: seq<Recommendation>, traded: bool)
    requires Valid(m)
    ensures QuietlyShrunk(m, MatchAll(cfg, m, recs, traded).0)
    decreases |recs|
  {
    hide MatchOne;
    if recs != [] {
      if !MatchOne(cfg, m, recs[0]).Skipped? {
        MatchOneShrinks(cfg, m, recs[0]);
        ValidAfterMatchOne(cfg, m, recs[0]);
      }
      match MatchOne(cfg, m, recs[0])
      case Raised(_, _) =>
      case Skipped => MatchAllShrinks(cfg, m, recs[1..], traded);
      case Traded(m1, ot, bt) => MatchAllShrinks(cfg, m1, Rewrite(recs[1..], ot, bt), true);
    }
  }

  // A recommendation that passes validation is not skipped.
  lemma SoundHeadTrades(cfg: Config, m: Market, recs: seq<Recommendation>)
    requires Valid(m) && recs != [] && SoundHead(m, recs[0])
    ensures MatchAll(cfg, m, recs, false).1 != Ok(false)
  {
    FindIn(m.offers, recs[0].offerId);
    FindIn(m.bids, recs[0].bidId);
    assert !MatchOne(cfg, m, recs[0]).Skipped?;
    if MatchOne(cfg, m, recs[0]).Traded? {
      ValidAfterMatchOne(cfg, m, recs[0]);
      var out := MatchOne(cfg, m, recs[0]);
      var rest := Rewrite(recs[1..], out.offerTrade, out.bidTrade);
      if MatchAll(cfg, out.market, rest, true).1.Ok? {
        RoundTakesEnergy(cfg, out.market, rest, true);
      }
    }
  }

  // The loop sets the flag only when nothing crosses any more; if it raises, the flag can only
  // have gone down.
  lemma {:induction false} LoopKeepsHonesty(cfg: Config, crosses: Relation, m: Market, matcher: Matcher)
    requires Valid(m) && Sound(matcher) && Complete(crosses, matcher) && FlagIsHonest(crosses, m)
    ensures var (m', r) := MatchUntilDone(cfg, m, matcher);
            FlagIsHonest(crosses, m') && (r.Ok? ==> m'.noNewOrder)
    decreases Units(m)
  {
    hide MatchAll;
    var pairs := matcher(m.offers, m.bids);
    if pairs != [] {
      var (m1, r) := MatchAll(cfg, m, pairs, false);
      SoundHeadTrades(cfg, m, pairs);
      MatchAllShrinks(cfg, m, pairs, false);
      ValidAfterMatchAll(cfg, m, pairs, false);
      ShrinkingKeepsHonesty(crosses, m, m1);
      if r == Ok(true) {
        RoundDropsUnits(cfg, m, pairs);
        LoopKeepsHonesty(cfg, crosses, m1, matcher);
      }
    }
  }

  lemma StepKeepsHonesty(cfg: Config, crosses: Relation, matcher: Matcher, m: Market, a: Action)
    requires Valid(m) && Sound(matcher) && Complete(crosses, matcher) && FlagIsHonest(crosses, m)
    ensures FlagIsHonest(crosses, Step(cfg, matcher, m, a).0)
  {
    hide AcceptOffer, AcceptBid, MatchAll, MatchUntilDone, AnyCrossing;
    var m' := Step(cfg, matcher, m, a).0;
    match a
    case PostsOffer(_, _, _, _, _) =>
    case PostsBid(_, _, _, _, _) =>
    case DeletesOffer(id) => AfterPop(m.offers, id); ShrinkingKeepsHonesty(crosses, m, m');
    case DeletesBid(id) => AfterPop(m.bids, id); ShrinkingKeepsHonesty(crosses, m, m');
    case AcceptsOffer(id, trader, energy, info) =>
      AcceptOfferShrinks(cfg, m, id, trader, energy, info, None);
      ShrinkingKeepsHonesty(crosses, m, m');
    case AcceptsBid(bid, energy, trader, info) =>
      AcceptBidShrinks(cfg, m, bid, energy, trader, info, None);
      ShrinkingKeepsHonesty(crosses, m, m');
    case Matches(recs) => MatchAllShrinks(cfg, m, recs, false); ShrinkingKeepsHonesty(crosses, m, m');
    case Ticks => LoopKeepsHonesty(cfg, crosses, m, matcher);
    case AsksAverage =>
  }

  lemma {:induction false} RunKeepsHonesty(cfg: Config, crosses: Relation, matcher: Matcher, m: Market,
                                           actions: seq<Action>)
    requires Valid(m) && Sound(matcher) && Complete(crosses, matcher) && FlagIsHonest(crosses, m)
    ensures FlagIsHonest(crosses, Run(cfg, matcher, m, actions))
    decreases |actions|
  {
    hide Step, FlagIsHonest;
    if actions != [] {
      ValidAfterStep(cfg, matcher, m, actions[0]);
      StepKeepsHonesty(cfg, crosses, matcher, m, actions[0]);
      RunKeepsHonesty(cfg, crosses, matcher, Step(cfg, matcher, m, actions[0]).0, actions[1..]);
    }
  }

  // Whatever the pairs an algorithm is complete for: in every reachable state in which the flag says
  // "skip", none of them is open. If it recommends nothing besides, matching anyway would have changed
  // nothing.
  lemma SkippingLosesNothing(cfg: Config, crosses: Relation, matcher: Matcher, actions: seq<Action>)
    requires Sound(matcher) && Complete(crosses, matcher)
    ensures Valid(EMPTY_MARKET)
    ensures var m := Run(cfg, matcher, EMPTY_MARKET, actions);
            m.noNewOrder ==>
              && !AnyCrossing(crosses, m.offers, m.bids) && Valid(m)
              && (Exact(crosses, matcher) ==> MatchUntilDone(cfg, m, matcher) == (m, Ok(())))
  {
    hide Step, AnyCrossing;
    NothingCrossesAtFirst(crosses);
    ValidAfterRun(cfg, matcher, EMPTY_MARKET, actions);
    RunKeepsHonesty(cfg, crosses, matcher, EMPTY_MARKET, actions);
    var m := Run(cfg, matcher, EMPTY_MARKET, actions);
    assert m.noNewOrder && Exact(crosses, matcher) ==> matcher(m.offers, m.bids) == [];
  }

  lemma NothingCrossesAtFirst(crosses: Relation)
    ensures !AnyCrossing(crosses, EMPTY_MARKET.offers, EMPTY_MARKET.bids)
  {
  }

  // A sound algorithm recommends nothing but pairs the market takes, tolerances included. So if it is
  // complete for these, skipping loses nothing at all.
  lemma SoundIsExactUpToTolerance(matcher: Matcher)
    requires Sound(matcher)
    ensures Exact(Matchable, matcher)
  {
    forall m: Market | Valid(m) && matcher(m.offers, m.bids) != [] ensures AnyCrossing(Matchable, m.offers, m.bids) {
      var rec := matcher(m.offers, m.bids)[0];
      assert SoundHead(m, rec);
      FindIn(m.offers, rec.offerId);
      FindIn(m.bids, rec.bidId);
      assert Matchable(Find(m.offers, rec.offerId).value, Find(m.bids, rec.bidId).value);
    }
  }

  // Such algorithms exist for every relation on pairs the market takes, exact crossing among them:
  // recommend any one pair, in full, at the bid's rate or half-way between the two.
  ghost function AnyPair(crosses: Relation, offers: Book, bids: Book): seq<Recommendation> {
    if AnyCrossing(crosses, offers, bids) then
      var o, b :| o in offers && b in bids && crosses(o, b);
      if Matchable(o, b) then
        [Recommendation(o.id, o.trader.originUuid, b.id, b.trader.originUuid, Min(o.energy, b.energy),
                        if b.Rate() >= o.Rate() then b.Rate() else (o.Rate() + b.Rate()) / 2.0)]
      else []
    else []
  }

  lemma AnyPairIsSoundAndComplete(crosses: Relation)
    requires forall o, b :: crosses(o, b) ==> Matchable(o, b)
    ensures var matcher := (offers, bids) => AnyPair(crosses, offers, bids);
            Sound(matcher) && Complete(crosses, matcher) && Exact(crosses, matcher)
  {
    forall m: Market | Valid(m) && AnyCrossing(crosses, m.offers, m.bids)
      ensures AnyPair(crosses, m.offers, m.bids) != [] && SoundHead(m, AnyPair(crosses, m.offers, m.bids)[0])
    {
      forall o | o in m.offers ensures Find(m.offers, o.id) == Some(o) { InFind(m.offers, o); }
      forall b | b in m.bids ensures Find(m.bids, b.id) == Some(b) { InFind(m.bids, b); }
    }
  }

  lemma ExactAndTolerantOnesExist()
    ensures exists matcher: Matcher :: Sound(matcher) && Complete(Crossing, matcher) && Exact(Crossing, matcher)
    ensures exists matcher: Matcher :: Sound(matcher) && Complete(Matchable, matcher) && Exact(Matchable, matcher)
  {
    AnyPairIsSoundAndComplete(Crossing);
    AnyPairIsSoundAndComplete(Matchable);
  }
}
