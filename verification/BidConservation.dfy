/** The bid side of conservation: over every run, what was posted is what is open, traded, deleted
    or lost by an acceptance that raised. */
module BidConservation {
  import opened Numeric
  import opened Books
  import opened Fees
  import opened MarketState
  import opened Acceptance
  import opened MatchingEngine
  import opened Runs
  import opened Mishaps
  import opened FairMarkets
  import opened Conservation

  // Residual bids are announced again after their trade; those announcements are not postings
  // from outside.
  function BidPostedEnergy(e: Event): real {
    if e.BidPosted? then e.bid.energy
    else if e.BidTraded? then -EnergyOfOption(e.trade.residual)
    else 0.0
  }

  function BidDeletedEnergy(e: Event): real {
    if e.BidDeleted? then e.bid.energy else 0.0
  }

  function BidTradedEnergy(e: Event): real {
    if e.BidTraded? then e.trade.tradedEnergy else 0.0
  }

  function BidBalance(e: Event): real {
    BidPostedEnergy(e) - BidDeletedEnergy(e) - BidTradedEnergy(e)
  }

  function Tolerance(e: Event): real {
    if e.BidTraded? then TOL else 0.0
  }

  lemma {:induction false} BidBalanceIsSum(events: seq<Event>)
    ensures Total(BidBalance, events) ==
            Total(BidPostedEnergy, events) - Total(BidDeletedEnergy, events) - Total(BidTradedEnergy, events)
  {
    if events != [] {
      BidBalanceIsSum(events[1..]);
    }
  }

  // The open bid energy and what was lost so far are what the log accounts for, up to TOL per trade.
  ghost predicate BidsAccounted(m: Market, lost: real) {
    Abs(Energy(m.bids) + lost - Total(BidBalance, m.events)) <= Total(Tolerance, m.events)
  }

  lemma AccountedWith(m: Market, m': Market, news: seq<Event>, lost: real, lostNow: real)
    requires BidsAccounted(m, lost) && m'.events == m.events + news
    requires Abs(Energy(m'.bids) - Energy(m.bids) + lostNow - Total(BidBalance, news)) <= Total(Tolerance, news)
    ensures BidsAccounted(m', lost + lostNow)
  {
    TotalAppend(BidBalance, m.events, news);
    TotalAppend(Tolerance, m.events, news);
  }

  lemma {:induction false} OfferEventsCarryNoBidEnergy(events: seq<Event>)
    requires forall e :: e in events ==> !AboutBids(e)
    ensures Total(BidBalance, events) == 0.0 && Total(Tolerance, events) == 0.0
  {
    if events != [] {
      assert events[0] in events;
      OfferEventsCarryNoBidEnergy(events[1..]);
    }
  }

  lemma AccountedAfterOffers(m: Market, m': Market, news: seq<Event>, lost: real)
    requires BidsAccounted(m, lost) && m'.bids == m.bids && m'.events == m.events + news
    requires forall e :: e in news ==> !AboutBids(e)
    ensures BidsAccounted(m', lost)
  {
    OfferEventsCarryNoBidEnergy(news);
    AccountedWith(m, m', news, lost, 0.0);
  }

  lemma AccountedAfterPost(cfg: Config, m: Market, price: real, energy: real, buyer: Trader,
                           originalPrice: Option<real>, adaptPrice: bool, timeSlot: int, lost: real)
    requires Valid(m) && BidsAccounted(m, lost)
    ensures var m' := PostBid(cfg, m, price, energy, buyer, None, originalPrice, true, adaptPrice, timeSlot).0;
            BidsAccounted(m', lost)
  {
    var (m', r) := PostBid(cfg, m, price, energy, buyer, None, originalPrice, true, adaptPrice, timeSlot);
    if r.Ok? {
      FreshBid(m.bids, m.nextId);
      PutFresh(m.bids, r.value);
      AfterAppend(m.bids, r.value);
      Single(BidPosted(r.value));
      AccountedWith(m, m', [BidPosted(r.value)], lost, 0.0);
    }
  }

  lemma AccountedAfterDelete(m: Market, id: nat, lost: real)
    requires Valid(m) && BidsAccounted(m, lost)
    ensures BidsAccounted(DeleteBid(m, id).0, lost)
  {
    var (m', r) := DeleteBid(m, id);
    if r.Ok? {
      AfterPop(m.bids, id);
      Single(BidDeleted(r.value));
      AccountedWith(m, m', [BidDeleted(r.value)], lost, 0.0);
    }
  }

  // What accept_offer tells the listeners.
  lemma NewsOfAcceptOffer(cfg: Config, m: Market, id: nat, buyer: Trader, energy: Option<real>,
                          info: Option<TradeInfo>, bid: Option<Order>) returns (news: seq<Event>)
    requires Valid(m)
    ensures var m' := AcceptOffer(cfg, m, id, buyer, energy, info, bid).0;
            m'.bids == m.bids && m'.events == m.events + news && forall e :: e in news ==> !AboutBids(e)
  {
    hide Pop, Find, OfferTradePrice, AcceptedPiece, ResidualPiece, RequestedEnergy, AddOrCreate, OriginalOfferPrice,
         BidsValid;
    var m' := AcceptOffer(cfg, m, id, buyer, energy, info, bid).0;
    news := m'.events[|m.events|..];
    assert m.events + [] == m.events;
  }

  lemma FailedAcceptBidNews(cfg: Config, m: Market, bid: Order, energy: Option<real>, seller: Trader,
                            info: TradeInfo, offer: Option<Order>) returns (news: seq<Event>)
    requires Valid(m) && AcceptBid(cfg, m, bid, energy, seller, info, offer).1.Err?
    ensures var m' := AcceptBid(cfg, m, bid, energy, seller, info, offer).0;
            m'.events == m.events + news && forall e :: e in news ==> e.BidSplit?
  {
    hide Pop, BidTradePrice, AcceptedPiece, ResidualPiece, RequestedEnergy;
    var m' := AcceptBid(cfg, m, bid, energy, seller, info, offer).0;
    news := m'.events[|m.events|..];
    assert m.events + [] == m.events;
  }

  lemma {:induction false} SplitsCarryNothing(events: seq<Event>)
    requires forall e :: e in events ==> e.BidSplit?
    ensures Total(BidBalance, events) == 0.0 && Total(Tolerance, events) == 0.0
  {
    if events != [] {
      assert events[0] in events;
      SplitsCarryNothing(events[1..]);
    }
  }

  lemma AcceptedBidTakes(cfg: Config, m: Market, bid: Order, energy: Option<real>, seller: Trader,
                         info: TradeInfo, offer: Option<Order>)
    requires Valid(m) && AcceptBid(cfg, m, bid, energy, seller, info, offer).1.Ok?
    ensures var (m', r) := AcceptBid(cfg, m, bid, energy, seller, info, offer);
            Abs(Energy(m.bids) - Energy(m'.bids) - r.value.tradedEnergy) <= TOL
  {
    BidAcceptedIff(cfg, m, bid, energy, seller, info, offer);
    AcceptedBidEffect(cfg, m, bid, energy, seller, info, offer);
    var b := Find(m.bids, bid.id).value;
    var e := RequestedEnergy(energy, b.energy);
    hide AcceptBid, RequestedEnergy, TradePriceAndFees, BookAfter;
    FreshBid(m.bids, m.nextId);
    FindBookAfter(m.bids, bid.id, Remainder(b, e, bid.originalPrice, m.nextId));
  }

  // A failing acceptance takes exactly the lost energy out of the book.
  lemma LostBidTakes(cfg: Config, m: Market, bid: Order, energy: Option<real>, seller: Trader,
                     info: TradeInfo, offer: Option<Order>)
    requires Valid(m) && AcceptBid(cfg, m, bid, energy, seller, info, offer).1.Err?
    ensures Energy(AcceptBid(cfg, m, bid, energy, seller, info, offer).0.bids) ==
            Energy(m.bids) - EnergyLostBy(BidMishap(cfg, m, bid, energy, info))
  {
    hide TradePriceAndFees, AcceptedPiece;
    if Find(m.bids, bid.id).Some? {
      var b := Find(m.bids, bid.id).value;
      var e := RequestedEnergy(energy, b.energy);
      BidAcceptedIff(cfg, m, bid, energy, seller, info, offer);
      AfterPop(m.bids, bid.id);
      FreshBid(Pop(m.bids, bid.id), m.nextId);
      AfterAppend(Pop(m.bids, bid.id), ResidualPiece(b, e, bid.originalPrice, m.nextId));
      AcceptedPriceSign(b, e);
    }
  }

  lemma AccountedAfterBidTrade(cfg: Config, m: Market, bid: Order, energy: Option<real>, seller: Trader,
                               info: TradeInfo, offer: Option<Order>, lost: real)
    requires Valid(m) && BidsAccounted(m, lost) && AcceptBid(cfg, m, bid, energy, seller, info, offer).1.Ok?
    ensures BidsAccounted(AcceptBid(cfg, m, bid, energy, seller, info, offer).0, lost)
  {
    hide AcceptBid, AcceptedPiece, ResidualPiece, TradePriceAndFees, Energy, RequestedEnergy, Valid, BidsAccounted,
         BookAfter, BidTradePrice;
    AcceptedBidEffect(cfg, m, bid, energy, seller, info, offer);
    AcceptedBidTakes(cfg, m, bid, energy, seller, info, offer);
    var (m', r) := AcceptBid(cfg, m, bid, energy, seller, info, offer);
    var traded := BidTraded(r.value);
    if r.value.residual.Some? {
      var b := Find(m.bids, bid.id).value;
      var split := BidSplit(b, AcceptedPiece(b, RequestedEnergy(energy, b.energy), bid.originalPrice),
                            r.value.residual.value);
      var posted := BidPosted(r.value.residual.value);
      assert m'.events == m.events + [split] + [traded] + [posted];
      SplitTradeNews(split, traded, posted);
      Regroup(m.events, [split], [traded]);
      Regroup(m.events, [split] + [traded], [posted]);
      AccountedWith(m, m', [split] + [traded] + [posted], lost, 0.0);
    } else {
      Single(traded);
      assert m'.events == m.events + [traded];
      AccountedWith(m, m', [traded], lost, 0.0);
    }
  }

  // The residual announced after a trade cancels out against the trade's own mention of it.
  lemma SplitTradeNews(split: Event, traded: Event, posted: Event)
    requires split.BidSplit? && traded.BidTraded? && posted.BidPosted?
    requires traded.trade.residual == Some(posted.bid)
    ensures var news := [split] + [traded] + [posted];
            Total(BidBalance, news) == -traded.trade.tradedEnergy && Total(Tolerance, news) == TOL
  {
    Single(split);
    Single(traded);
    Single(posted);
    TotalAppend(BidBalance, [split], [traded]);
    TotalAppend(Tolerance, [split], [traded]);
    TotalAppend(BidBalance, [split] + [traded], [posted]);
    TotalAppend(Tolerance, [split] + [traded], [posted]);
  }

  lemma AccountedAfterAcceptBid(cfg: Config, m: Market, bid: Order, energy: Option<real>, seller: Trader,
                                info: TradeInfo, offer: Option<Order>, lost: real)
    requires Valid(m) && BidsAccounted(m, lost)
    ensures BidsAccounted(AcceptBid(cfg, m, bid, energy, seller, info, offer).0,
                          lost + EnergyLostBy(BidMishap(cfg, m, bid, energy, info)))
  {
    hide AcceptBid, BidLegGoesThrough, Energy, SameLedger, BidsAccounted;
    BidAcceptedIff(cfg, m, bid, energy, seller, info, offer);
    var m' := AcceptBid(cfg, m, bid, energy, seller, info, offer).0;
    if AcceptBid(cfg, m, bid, energy, seller, info, offer).1.Err? {
      LostBidTakes(cfg, m, bid, energy, seller, info, offer);
      var news := FailedAcceptBidNews(cfg, m, bid, energy, seller, info, offer);
      SplitsCarryNothing(news);
      AccountedWith(m, m', news, lost, EnergyLostBy(BidMishap(cfg, m, bid, energy, info)));
    } else {
      AccountedAfterBidTrade(cfg, m, bid, energy, seller, info, offer, lost);
    }
  }

  lemma BidNotFoundIff(cfg: Config, m: Market, bid: Order, energy: Option<real>, seller: Trader,
                       info: TradeInfo, offer: Option<Order>)
    requires Valid(m)
    ensures var (m', r) := AcceptBid(cfg, m, bid, energy, seller, info, offer);
            && (r == Err(BidNotFound) <==> Find(m.bids, bid.id).None?)
            && (r == Err(BidNotFound) ==> m' == m)
            && r != Err(InvalidPair)
  {
    hide Pop, BidTradePrice, ResidualPiece, RequestedEnergy;
  }

  // The bid leg finds the bids as they were, so what it loses can be told before the pair starts.
  lemma AccountedAfterPair(cfg: Config, m: Market, bid: Order, offer: Order, info: TradeInfo, energy: real, lost: real)
    requires Valid(m) && BidsAccounted(m, lost) && Find(m.offers, offer.id) == Some(offer)
    ensures BidsAccounted(AcceptPair(cfg, m, bid, offer, info, energy).0,
                          lost + EnergyLostBy(PairMishap(cfg, m, bid, offer, info, energy)))
  {
    hide AcceptOffer, AcceptBid, BidsAccounted, AboutBids, BidLegGoesThrough, OfferLegGoesThrough, StrandsResidual;
    OfferAcceptedIff(cfg, m, offer.id, bid.trader, Some(energy), Some(info), Some(bid));
    ValidAfterAcceptOffer(cfg, m, offer.id, bid.trader, Some(energy), Some(info), Some(bid));
    var m1 := AcceptOffer(cfg, m, offer.id, bid.trader, Some(energy), Some(info), Some(bid)).0;
    var news := NewsOfAcceptOffer(cfg, m, offer.id, bid.trader, Some(energy), Some(info), Some(bid));
    AccountedAfterOffers(m, m1, news, lost);
    AccountedAfterAcceptBid(cfg, m1, bid, Some(energy), offer.trader, info, Some(offer), lost);
  }

  lemma AccountedAfterMatchOne(cfg: Config, m: Market, rec: Recommendation, lost: real)
    requires Valid(m) && BidsAccounted(m, lost) && !MatchOne(cfg, m, rec).Skipped?
    ensures BidsAccounted(MatchOne(cfg, m, rec).market, lost + EnergyLostBy(MatchOneMishap(cfg, m, rec)))
  {
    hide AcceptPair, PairMishap, BidsAccounted;
    ResolvedIsOpen(m, rec.offerId, rec.offerOrigin, rec.bidId, rec.bidOrigin);
    var offer := Resolve(m.offers, rec.offerId, rec.offerOrigin);
    var bid := Resolve(m.bids, rec.bidId, rec.bidOrigin);
    if offer.Some? && bid.Some? && ClearingInfo(cfg, offer.value, bid.value, rec.tradeRate).Some? {
      AccountedAfterPair(cfg, m, bid.value, offer.value, ClearingInfo(cfg, offer.value, bid.value, rec.tradeRate).value,
                         Min(Min(rec.selectedEnergy, offer.value.energy), bid.value.energy), lost);
    }
  }

  lemma {:induction false} AccountedAfterMatchAll(cfg: Config, m: Market, recs: seq<Recommendation>, traded: bool,
                                                  lost: real)
    requires Valid(m) && BidsAccounted(m, lost)
    ensures BidsAccounted(MatchAll(cfg, m, recs, traded).0, lost + EnergyLostBy(MatchAllMishap(cfg, m, recs)))
    decreases |recs|
  {
    hide MatchOne, BidsAccounted, MatchOneMishap;
    if recs != [] {
      if !MatchOne(cfg, m, recs[0]).Skipped? {
        AccountedAfterMatchOne(cfg, m, recs[0], lost);
        ValidAfterMatchOne(cfg, m, recs[0]);
      }
      match MatchOne(cfg, m, recs[0])
      case Raised(_, _) =>
      case Skipped => AccountedAfterMatchAll(cfg, m, recs[1..], traded, lost);
      case Traded(m1, ot, bt) =>
        if MatchOneMishap(cfg, m, recs[0]) != NoMishap {
          MatchOneMishapIsRaised(cfg, m, recs[0]);
        }
        AccountedAfterMatchAll(cfg, m1, Rewrite(recs[1..], ot, bt), true, lost);
    }
  }

  lemma {:induction false} AccountedAfterLoop(cfg: Config, m: Market, matcher: Matcher, lost: real)
    requires Valid(m) && BidsAccounted(m, lost)
    ensures BidsAccounted(MatchUntilDone(cfg, m, matcher).0, lost + EnergyLostBy(LoopMishap(cfg, m, matcher)))
    decreases Units(m)
  {
    hide MatchAll, MatchAllMishap;
    var pairs := matcher(m.offers, m.bids);
    if pairs != [] {
      var (m1, r) := MatchAll(cfg, m, pairs, false);
      AccountedAfterMatchAll(cfg, m, pairs, false, lost);
      ValidAfterMatchAll(cfg, m, pairs, false);
      if r == Ok(true) {
        MatchAllMishapIsRaised(cfg, m, pairs, false);
        RoundDropsUnits(cfg, m, pairs);
        AccountedAfterLoop(cfg, m1, matcher, lost);
      }
    }
  }

  lemma AccountedAfterStep(cfg: Config, matcher: Matcher, m: Market, a: Action, lost: real)
    requires Valid(m) && BidsAccounted(m, lost)
    ensures BidsAccounted(Step(cfg, matcher, m, a).0, lost + EnergyLostBy(StepMishap(cfg, matcher, m, a)))
  {
    hide AcceptOffer, AcceptBid, MatchAll, MatchUntilDone, PostBid, DeleteBid, BidMishap, MatchAllMishap, LoopMishap;
    var m' := Step(cfg, matcher, m, a).0;
    match a
    case PostsOffer(_, _, _, _, _) =>
      if m' != m {
        AccountedAfterOffers(m, m', [m'.events[|m.events|]], lost);
      }
    case PostsBid(price, energy, trader, original, slot) =>
      AccountedAfterPost(cfg, m, price, energy, trader, original, true, slot, lost);
    case DeletesOffer(id) =>
      if m' != m {
        AccountedAfterOffers(m, m', [m'.events[|m.events|]], lost);
      }
    case DeletesBid(id) => AccountedAfterDelete(m, id, lost);
    case AcceptsOffer(id, trader, energy, info) =>
      var news := NewsOfAcceptOffer(cfg, m, id, trader, energy, info, None);
      AccountedAfterOffers(m, m', news, lost);
    case AcceptsBid(bid, energy, trader, info) =>
      AccountedAfterAcceptBid(cfg, m, bid, energy, trader, info, None, lost);
    case Matches(recs) => AccountedAfterMatchAll(cfg, m, recs, false, lost);
    case Ticks => AccountedAfterLoop(cfg, m, matcher, lost);
    case AsksAverage =>
  }

  lemma {:induction false} AccountedAfterRun(cfg: Config, matcher: Matcher, m: Market, actions: seq<Action>, lost: real)
    requires Valid(m) && BidsAccounted(m, lost)
    ensures BidsAccounted(Run(cfg, matcher, m, actions), lost + EnergyLostIn(MishapsOf(cfg, matcher, m, actions)))
    decreases |actions|
  {
    hide Step, BidsAccounted, StepMishap;
    if actions != [] {
      var x, m1 := StepMishap(cfg, matcher, m, actions[0]), Step(cfg, matcher, m, actions[0]).0;
      ValidAfterStep(cfg, matcher, m, actions[0]);
      AccountedAfterStep(cfg, matcher, m, actions[0], lost);
      AccountedAfterRun(cfg, matcher, m1, actions[1..], lost + EnergyLostBy(x));
      assert ([x] + MishapsOf(cfg, matcher, m1, actions[1..]))[1..] == MishapsOf(cfg, matcher, m1, actions[1..]);
    }
  }

  // Over every run, failing steps included, the bid energy posted from outside is the energy that
  // is open, traded, deleted or lost, up to TOL per trade. What was lost is told from the states the
  // steps start in: the energy of each bid whose acceptance is reached and cannot go through, less
  // the residual that was already cut off. It is nothing exactly if no step gets there.
  lemma BidEnergyIsConserved(cfg: Config, matcher: Matcher, actions: seq<Action>)
    ensures Valid(EMPTY_MARKET)
    ensures var m := Run(cfg, matcher, EMPTY_MARKET, actions);
            var mishaps := MishapsOf(cfg, matcher, EMPTY_MARKET, actions);
            && Abs(Total(BidPostedEnergy, m.events) - Energy(m.bids) - Total(BidTradedEnergy, m.events)
                   - Total(BidDeletedEnergy, m.events) - EnergyLostIn(mishaps))
               <= Total(Tolerance, m.events)
            && EnergyLostIn(mishaps) >= 0.0
            && (EnergyLostIn(mishaps) == 0.0 <==> forall x :: x in mishaps ==> !x.LostBid?)
            // Requests that are fair and careful lose nothing.
            && (FairRun(cfg, matcher, EMPTY_MARKET, actions) && CarefulRun(cfg, matcher, EMPTY_MARKET, actions) ==>
                  EnergyLostIn(mishaps) == 0.0)
  {
    hide Run, Total, EnergyLostIn, MishapsOf, FairRun, CarefulRun;
    NothingBidAtFirst();
    AccountedAfterRun(cfg, matcher, EMPTY_MARKET, actions, 0.0);
    BidBalanceIsSum(Run(cfg, matcher, EMPTY_MARKET, actions).events);
    NothingWentWrongIff(MishapsOf(cfg, matcher, EMPTY_MARKET, actions));
    if FairRun(cfg, matcher, EMPTY_MARKET, actions) {
      FairRunStrandsNothing(cfg, matcher, EMPTY_MARKET, actions);
    }
  }

  lemma NothingBidAtFirst()
    ensures Valid(EMPTY_MARKET) && BidsAccounted(EMPTY_MARKET, 0.0)
    ensures forall fee :: FairMarket(fee, EMPTY_MARKET)
  {
  }

  // A bid posted at price zero gets its original price, here below zero; half of it is asked for.
  function LosingRun(): seq<Action> {
    [PostsBid(0.0, 1.0, BUYER, Some(-5.0), 0),
     AcceptsBid(Order(0, -5.0, 1.0, -5.0, BUYER, 0), Some(0.5), SELLER, TradeInfo(1.0, 1.0, 1.0, 1.0, 1.0))]
  }

  lemma LosingHappens(matcher: Matcher)
    ensures var cfg := Config(PercentageFee(0.0), false, false, false);
            var m := Run(cfg, matcher, EMPTY_MARKET, LosingRun());
            && m.bids == [] && m.trades == []
            && EnergyLostIn(MishapsOf(cfg, matcher, EMPTY_MARKET, LosingRun())) == 1.0
  {
    var cfg := Config(PercentageFee(0.0), false, false, false);
    var posted, asked := LosingRun()[0], LosingRun()[1];
    var b := Order(0, -5.0, 1.0, -5.0, BUYER, 0);
    var m1 := Step(cfg, matcher, EMPTY_MARKET, posted).0;
    assert m1.bids == [b] && m1.nextId == 1 && m1.trades == [];
    ValidAfterStep(cfg, matcher, EMPTY_MARKET, posted);
    assert Find(m1.bids, 0) == Some(b) && Pop(m1.bids, 0) == [];
    assert RequestedEnergy(Some(0.5), 1.0) == 0.5;
    PartOfNegativeBidIsLost(cfg, m1, b, Some(0.5), SELLER, TradeInfo(1.0, 1.0, 1.0, 1.0, 1.0), None);
    assert StepMishap(cfg, matcher, m1, asked) == LostBid(b, 1.0);
    RunOfTwo(cfg, matcher, EMPTY_MARKET, posted, asked);
  }
}
