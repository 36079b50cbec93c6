/** Energy is conserved over every run, failing operations included. The sums of what was posted,
    traded and deleted are taken over the log of what the listeners were told. */
module Conservation {
  import opened Numeric
  import opened Books
  import opened Fees
  import opened MarketState
  import opened Acceptance
  import opened MatchingEngine
  import opened Runs
  import opened Mishaps
  import opened FairMarkets

  function Total(f: Event -> real, events: seq<Event>): real {
    if events == [] then 0.0 else f(events[0]) + Total(f, events[1..])
  }

  lemma {:induction false} TotalAppend(f: Event -> real, a: seq<Event>, b: seq<Event>)
    ensures Total(f, a + b) == Total(f, a) + Total(f, b)
  {
    if a == [] {
      assert a + b == b;
    } else {
      assert (a + b)[1..] == a[1..] + b;
      TotalAppend(f, a[1..], b);
    }
  }

  function EnergyOfOption(o: Option<Order>): real {
    if o.Some? then o.value.energy else 0.0
  }

  // ----- offers -----

  function OfferPostedEnergy(e: Event): real {
    if e.OfferPosted? then e.offer.energy else 0.0
  }

  function OfferDeletedEnergy(e: Event): real {
    if e.OfferDeleted? then e.offer.energy else 0.0
  }

  function OfferTradedEnergy(e: Event): real {
    if e.OfferTraded? then e.trade.tradedEnergy else 0.0
  }

  // What a trade of a whole offer drops, or adds, by not trading exactly its energy.
  function OfferRounding(e: Event): real {
    if e.OfferTraded? then EnergyOfOption(e.trade.offer) - e.trade.tradedEnergy else 0.0
  }

  // A residual that was split off but whose trade never came stays in the book next to the whole
  // original.
  function StrandedEnergy(e: Event): real {
    if e.OfferSplit? then e.residual.energy
    else if e.OfferTraded? then -EnergyOfOption(e.trade.residual)
    else 0.0
  }

  function OfferBalance(e: Event): real {
    OfferPostedEnergy(e) - OfferDeletedEnergy(e) - OfferTradedEnergy(e) - OfferRounding(e) + StrandedEnergy(e)
  }

  ghost predicate RoundingIsSmall(events: seq<Event>) {
    forall e :: e in events ==> Abs(OfferRounding(e)) <= TOL
  }

  function OfferTrades(events: seq<Event>): nat {
    if events == [] then 0 else (if events[0].OfferTraded? then 1 else 0) + OfferTrades(events[1..])
  }

  lemma {:induction false} BalanceIsSum(events: seq<Event>)
    ensures Total(OfferBalance, events) ==
            Total(OfferPostedEnergy, events) - Total(OfferDeletedEnergy, events) - Total(OfferTradedEnergy, events)
            - Total(OfferRounding, events) + Total(StrandedEnergy, events)
  {
    if events != [] {
      BalanceIsSum(events[1..]);
    }
  }

  lemma {:induction false} RoundingBound(events: seq<Event>)
    requires RoundingIsSmall(events)
    ensures Abs(Total(OfferRounding, events)) <= Times(OfferTrades(events), TOL)
  {
    if events != [] {
      assert events[0] in events;
      RoundingBound(events[1..]);
    }
  }

  // The open offer energy is what the log accounts for, and the residuals without a trade in it
  // are those stranded so far.
  ghost predicate OffersBalanced(m: Market, stranded: real) {
    && Energy(m.offers) == Total(OfferBalance, m.events) && RoundingIsSmall(m.events)
    && Total(StrandedEnergy, m.events) == stranded
  }

  lemma BalancedWith(m: Market, m': Market, news: seq<Event>, stranded: real)
    requires OffersBalanced(m, stranded) && m'.events == m.events + news && RoundingIsSmall(news)
    requires Energy(m'.offers) == Energy(m.offers) + Total(OfferBalance, news)
    ensures OffersBalanced(m', stranded + Total(StrandedEnergy, news))
  {
    TotalAppend(OfferBalance, m.events, news);
    TotalAppend(StrandedEnergy, m.events, news);
  }

  lemma Single(e: Event)
    ensures forall f: Event -> real :: Total(f, [e]) == f(e)
  {
  }

  lemma Pair(e: Event, d: Event)
    ensures forall f: Event -> real :: Total(f, [e, d]) == f(e) + f(d)
  {
    forall f: Event -> real ensures Total(f, [e, d]) == f(e) + f(d) {
      TotalAppend(f, [e], [d]);
      assert [e] + [d] == [e, d];
    }
  }

  lemma BalancedAfterPost(cfg: Config, m: Market, price: real, energy: real, seller: Trader,
                          originalPrice: Option<real>, adaptPrice: bool, timeSlot: int, stranded: real)
    requires Valid(m) && OffersBalanced(m, stranded)
    ensures var m' := PostOffer(cfg, m, price, energy, seller, None, originalPrice, true, adaptPrice, timeSlot).0;
            OffersBalanced(m', stranded)
  {
    var (m', r) := PostOffer(cfg, m, price, energy, seller, None, originalPrice, true, adaptPrice, timeSlot);
    if r.Ok? {
      FreshOffer(m.offers, m.nextId);
      PutFresh(m.offers, r.value);
      AfterAppend(m.offers, r.value);
      Single(OfferPosted(r.value));
      BalancedWith(m, m', [OfferPosted(r.value)], stranded);
    }
  }

  lemma BalancedAfterDelete(m: Market, id: nat, stranded: real)
    requires Valid(m) && OffersBalanced(m, stranded)
    ensures OffersBalanced(DeleteOffer(m, id).0, stranded)
  {
    var (m', r) := DeleteOffer(m, id);
    if r.Ok? {
      AfterPop(m.offers, id);
      Single(OfferDeleted(r.value));
      BalancedWith(m, m', [OfferDeleted(r.value)], stranded);
    }
  }

  lemma BalancedAfterFailedAcceptOffer(cfg: Config, m: Market, id: nat, buyer: Trader, energy: Option<real>,
                                       info: Option<TradeInfo>, bid: Option<Order>, stranded: real)
    requires Valid(m) && OffersBalanced(m, stranded)
    requires AcceptOffer(cfg, m, id, buyer, energy, info, bid).1.Err?
    ensures OffersBalanced(AcceptOffer(cfg, m, id, buyer, energy, info, bid).0,
                           stranded + EnergyStrandedBy(OfferMishap(cfg, m, id, energy, info)))
  {
    hide TradePriceAndFees, Energy, Pop;
    var m' := AcceptOffer(cfg, m, id, buyer, energy, info, bid).0;
    FailedAcceptOfferIsAtomicIff(cfg, m, id, buyer, energy, info, bid);
    if m'.events != m.events {
      var o := Find(m.offers, id).value;
      var e := RequestedEnergy(energy, o.energy);
      var original := OriginalOfferPrice(o);
      var split := OfferSplit(o, AcceptedPiece(o, e, original), ResidualPiece(o, e, original, m.nextId));
      assert m'.events == m.events + [split];
      Single(split);
      BalancedWith(m, m', [split], stranded);
    }
  }

  lemma BalancedAfterAcceptOffer(cfg: Config, m: Market, id: nat, buyer: Trader, energy: Option<real>,
                                 info: Option<TradeInfo>, bid: Option<Order>, stranded: real)
    requires Valid(m) && OffersBalanced(m, stranded)
    ensures OffersBalanced(AcceptOffer(cfg, m, id, buyer, energy, info, bid).0,
                           stranded + EnergyStrandedBy(OfferMishap(cfg, m, id, energy, info)))
  {
    hide AcceptOffer, AcceptedPiece, TradePriceAndFees, Energy;
    var (m', r) := AcceptOffer(cfg, m, id, buyer, energy, info, bid);
    if r.Err? {
      BalancedAfterFailedAcceptOffer(cfg, m, id, buyer, energy, info, bid, stranded);
    } else {
      OfferAcceptedIff(cfg, m, id, buyer, energy, info, bid);
      AcceptedOfferEffect(cfg, m, id, buyer, energy, info, bid);
      AcceptedOfferTakes(cfg, m, id, buyer, energy, info, bid);
      var o := Find(m.offers, id).value;
      var e := RequestedEnergy(energy, o.energy);
      if r.value.residual.Some? {
        var split := OfferSplit(o, AcceptedPiece(o, e, OriginalOfferPrice(o)), r.value.residual.value);
        Pair(split, OfferTraded(r.value));
        assert m'.events == m.events + [split, OfferTraded(r.value)];
        BalancedWith(m, m', [split, OfferTraded(r.value)], stranded);
      } else {
        Single(OfferTraded(r.value));
        assert m'.events == m.events + [OfferTraded(r.value)];
        BalancedWith(m, m', [OfferTraded(r.value)], stranded);
      }
    }
  }

  // An event that does not concern offers.
  predicate AboutBids(e: Event) {
    e.BidPosted? || e.BidDeleted? || e.BidSplit? || e.BidTraded?
  }

  lemma {:induction false} BidEventsCarryNoOfferEnergy(events: seq<Event>)
    requires forall e :: e in events ==> AboutBids(e)
    ensures Total(OfferBalance, events) == 0.0 && Total(StrandedEnergy, events) == 0.0 && RoundingIsSmall(events)
  {
    if events != [] {
      assert events[0] in events;
      BidEventsCarryNoOfferEnergy(events[1..]);
    }
  }

  lemma BalancedAfterBids(m: Market, m': Market, news: seq<Event>, stranded: real)
    requires OffersBalanced(m, stranded) && m'.offers == m.offers && m'.events == m.events + news
    requires forall e :: e in news ==> AboutBids(e)
    ensures OffersBalanced(m', stranded)
  {
    BidEventsCarryNoOfferEnergy(news);
    BalancedWith(m, m', news, stranded);
  }

  // What accept_bid tells the listeners.
  lemma NewsOfAcceptBid(cfg: Config, m: Market, bid: Order, energy: Option<real>, seller: Trader,
                        info: TradeInfo, offer: Option<Order>) returns (news: seq<Event>)
    requires Valid(m)
    ensures var m' := AcceptBid(cfg, m, bid, energy, seller, info, offer).0;
            m'.offers == m.offers && m'.events == m.events + news && forall e :: e in news ==> AboutBids(e)
  {
    hide Pop, Find, BidTradePrice, AcceptedPiece, ResidualPiece, RequestedEnergy, AddOrCreate, OffersValid;
    var m' := AcceptBid(cfg, m, bid, energy, seller, info, offer).0;
    news := m'.events[|m.events|..];
    assert m.events + [] == m.events;
  }

  lemma BalancedAfterPair(cfg: Config, m: Market, bid: Order, offer: Order, info: TradeInfo, energy: real,
                          stranded: real)
    requires Valid(m) && OffersBalanced(m, stranded) && Find(m.offers, offer.id) == Some(offer)
    ensures OffersBalanced(AcceptPair(cfg, m, bid, offer, info, energy).0,
                           stranded + EnergyStrandedBy(PairMishap(cfg, m, bid, offer, info, energy)))
  {
    hide AcceptOffer, AcceptBid, OffersBalanced, AboutBids, RequestedEnergy, TradePriceAndFees;
    OfferAcceptedIff(cfg, m, offer.id, bid.trader, Some(energy), Some(info), Some(bid));
    BalancedAfterAcceptOffer(cfg, m, offer.id, bid.trader, Some(energy), Some(info), Some(bid), stranded);
    ValidAfterAcceptOffer(cfg, m, offer.id, bid.trader, Some(energy), Some(info), Some(bid));
    var m1 := AcceptOffer(cfg, m, offer.id, bid.trader, Some(energy), Some(info), Some(bid)).0;
    var news := NewsOfAcceptBid(cfg, m1, bid, Some(energy), offer.trader, info, Some(offer));
    var m2 := AcceptBid(cfg, m1, bid, Some(energy), offer.trader, info, Some(offer)).0;
    if OffersBalanced(m1, stranded) {
      BalancedAfterBids(m1, m2, news, stranded);
    }
  }

  lemma BalancedAfterMatchOne(cfg: Config, m: Market, rec: Recommendation, stranded: real)
    requires Valid(m) && OffersBalanced(m, stranded) && !MatchOne(cfg, m, rec).Skipped?
    ensures OffersBalanced(MatchOne(cfg, m, rec).market, stranded + EnergyStrandedBy(MatchOneMishap(cfg, m, rec)))
  {
    hide AcceptPair, PairMishap, OffersBalanced;
    ResolvedIsOpen(m, rec.offerId, rec.offerOrigin, rec.bidId, rec.bidOrigin);
    var offer := Resolve(m.offers, rec.offerId, rec.offerOrigin);
    var bid := Resolve(m.bids, rec.bidId, rec.bidOrigin);
    if offer.Some? && bid.Some? && ClearingInfo(cfg, offer.value, bid.value, rec.tradeRate).Some? {
      BalancedAfterPair(cfg, m, bid.value, offer.value, ClearingInfo(cfg, offer.value, bid.value, rec.tradeRate).value,
                        Min(Min(rec.selectedEnergy, offer.value.energy), bid.value.energy), stranded);
    }
  }

  lemma {:induction false} BalancedAfterMatchAll(cfg: Config, m: Market, recs: seq<Recommendation>, traded: bool,
                                                 stranded: real)
    requires Valid(m) && OffersBalanced(m, stranded)
    ensures OffersBalanced(MatchAll(cfg, m, recs, traded).0, stranded + EnergyStrandedBy(MatchAllMishap(cfg, m, recs)))
    decreases |recs|
  {
    hide MatchOne, OffersBalanced, MatchOneMishap;
    if recs != [] {
      if !MatchOne(cfg, m, recs[0]).Skipped? {
        BalancedAfterMatchOne(cfg, m, recs[0], stranded);
        ValidAfterMatchOne(cfg, m, recs[0]);
      }
      match MatchOne(cfg, m, recs[0])
      case Raised(_, _) =>
      case Skipped => BalancedAfterMatchAll(cfg, m, recs[1..], traded, stranded);
      case Traded(m1, ot, bt) =>
        if MatchOneMishap(cfg, m, recs[0]) != NoMishap {
          MatchOneMishapIsRaised(cfg, m, recs[0]);
        }
        BalancedAfterMatchAll(cfg, m1, Rewrite(recs[1..], ot, bt), true, stranded);
    }
  }

  lemma {:induction false} BalancedAfterLoop(cfg: Config, m: Market, matcher: Matcher, stranded: real)
    requires Valid(m) && OffersBalanced(m, stranded)
    ensures OffersBalanced(MatchUntilDone(cfg, m, matcher).0, stranded + EnergyStrandedBy(LoopMishap(cfg, m, matcher)))
    decreases Units(m)
  {
    hide MatchAll, MatchAllMishap;
    var pairs := matcher(m.offers, m.bids);
    if pairs != [] {
      var (m1, r) := MatchAll(cfg, m, pairs, false);
      BalancedAfterMatchAll(cfg, m, pairs, false, stranded);
      ValidAfterMatchAll(cfg, m, pairs, false);
      if r == Ok(true) {
        MatchAllMishapIsRaised(cfg, m, pairs, false);
        RoundDropsUnits(cfg, m, pairs);
        BalancedAfterLoop(cfg, m1, matcher, stranded);
      }
    }
  }

  lemma BalancedAfterStep(cfg: Config, matcher: Matcher, m: Market, a: Action, stranded: real)
    requires Valid(m) && OffersBalanced(m, stranded)
    ensures OffersBalanced(Step(cfg, matcher, m, a).0, stranded + EnergyStrandedBy(StepMishap(cfg, matcher, m, a)))
  {
    hide AcceptOffer, AcceptBid, MatchAll, MatchUntilDone, PostOffer, DeleteOffer, OfferMishap,
         MatchAllMishap, LoopMishap;
    var m' := Step(cfg, matcher, m, a).0;
    match a
    case PostsOffer(price, energy, trader, original, slot) =>
      BalancedAfterPost(cfg, m, price, energy, trader, original, true, slot, stranded);
    case PostsBid(_, _, _, _, _) =>
      if m' != m {
        BalancedAfterBids(m, m', [m'.events[|m.events|]], stranded);
      }
    case DeletesOffer(id) => BalancedAfterDelete(m, id, stranded);
    case DeletesBid(id) =>
      if m' != m {
        BalancedAfterBids(m, m', [m'.events[|m.events|]], stranded);
      }
    case AcceptsOffer(id, trader, energy, info) =>
      BalancedAfterAcceptOffer(cfg, m, id, trader, energy, info, None, stranded);
    case AcceptsBid(bid, energy, trader, info) =>
      var news := NewsOfAcceptBid(cfg, m, bid, energy, trader, info, None);
      BalancedAfterBids(m, m', news, stranded);
    case Matches(recs) => BalancedAfterMatchAll(cfg, m, recs, false, stranded);
    case Ticks => BalancedAfterLoop(cfg, m, matcher, stranded);
    case AsksAverage =>
  }

  lemma {:induction false} BalancedAfterRun(cfg: Config, matcher: Matcher, m: Market, actions: seq<Action>,
                                            stranded: real)
    requires Valid(m) && OffersBalanced(m, stranded)
    ensures OffersBalanced(Run(cfg, matcher, m, actions),
                           stranded + EnergyStranded(MishapsOf(cfg, matcher, m, actions)))
    decreases |actions|
  {
    hide Step, OffersBalanced, StepMishap;
    if actions != [] {
      var x, m1 := StepMishap(cfg, matcher, m, actions[0]), Step(cfg, matcher, m, actions[0]).0;
      ValidAfterStep(cfg, matcher, m, actions[0]);
      BalancedAfterStep(cfg, matcher, m, actions[0], stranded);
      BalancedAfterRun(cfg, matcher, m1, actions[1..], stranded + EnergyStrandedBy(x));
      assert ([x] + MishapsOf(cfg, matcher, m1, actions[1..]))[1..] == MishapsOf(cfg, matcher, m1, actions[1..]);
    }
  }

  // Over any run, the offer energy posted from outside, plus what was stranded, is the energy that
  // is open, traded or deleted, up to TOL for every trade. What was stranded is, step by step, told
  // from the state the step starts in, and it is nothing exactly if no step strands a residual.
  lemma OfferEnergyIsConserved(cfg: Config, matcher: Matcher, actions: seq<Action>)
    ensures Valid(EMPTY_MARKET)
    ensures var m := Run(cfg, matcher, EMPTY_MARKET, actions);
            var mishaps := MishapsOf(cfg, matcher, EMPTY_MARKET, actions);
            && Abs(Total(OfferPostedEnergy, m.events) + EnergyStranded(mishaps)
                   - Energy(m.offers) - Total(OfferTradedEnergy, m.events) - Total(OfferDeletedEnergy, m.events))
               <= Times(OfferTrades(m.events), TOL)
            && EnergyStranded(mishaps) >= 0.0
            && (EnergyStranded(mishaps) == 0.0 <==> forall x :: x in mishaps ==> !x.StrandedResidual?)
            // Fair postings and requests strand nothing; with constant fees that is any run.
            && (FairRun(cfg, matcher, EMPTY_MARKET, actions) ==> EnergyStranded(mishaps) == 0.0)
            && (cfg.fee.ConstantFee? ==> EnergyStranded(mishaps) == 0.0)
  {
    hide Run, Total, EnergyStranded, MishapsOf, FairRun;
    NothingOfferedAtFirst();
    BalancedAfterRun(cfg, matcher, EMPTY_MARKET, actions, 0.0);
    var m := Run(cfg, matcher, EMPTY_MARKET, actions);
    BalanceIsSum(m.events);
    RoundingBound(m.events);
    NothingWentWrongIff(MishapsOf(cfg, matcher, EMPTY_MARKET, actions));
    if cfg.fee.ConstantFee? {
      ConstantFeesAreFair(cfg, matcher, EMPTY_MARKET, actions);
    }
    if FairRun(cfg, matcher, EMPTY_MARKET, actions) {
      FairRunStrandsNothing(cfg, matcher, EMPTY_MARKET, actions);
    }
  }

  lemma NothingOfferedAtFirst()
    ensures Valid(EMPTY_MARKET) && OffersBalanced(EMPTY_MARKET, 0.0)
    ensures forall fee :: FairMarket(fee, EMPTY_MARKET)
  {
  }

  // ----- stranding happens -----

  const SELLER := Trader("seller", "s", Some("s"))
  const BUYER := Trader("buyer", "b", Some("b"))

  // Half of a one kWh offer that is posted at price zero although its device asks for five, taken
  // against a bid that paid no fees on its way.
  const STRANDING_RUN: seq<Action> := [
    PostsOffer(0.0, 1.0, SELLER, Some(5.0), 0),
    AcceptsOffer(0, BUYER, Some(0.5), Some(TradeInfo(10.0, 10.0, 5.0, 0.0, 10.0)))]

  lemma StrandingHappens(matcher: Matcher)
    ensures var cfg := Config(PercentageFee(0.0), false, false, false);
            && Energy(Run(cfg, matcher, EMPTY_MARKET, STRANDING_RUN).offers) == 1.5
            && EnergyStranded(MishapsOf(cfg, matcher, EMPTY_MARKET, STRANDING_RUN)) == 0.5
  {
    var cfg := Config(PercentageFee(0.0), false, false, false);
    var info := TradeInfo(10.0, 10.0, 5.0, 0.0, 10.0);
    var posted, asked := STRANDING_RUN[0], STRANDING_RUN[1];
    var o := Order(0, 0.0, 1.0, 5.0, SELLER, 0);
    var m1 := Step(cfg, matcher, EMPTY_MARKET, posted).0;
    assert m1.offers == [o] && m1.nextId == 1;
    assert !m1.readonly && Find(m1.offers, 0) == Some(o);
    assert Energy(m1.offers) == 1.0;
    ValidAfterStep(cfg, matcher, EMPTY_MARKET, posted);
    assert DemandSideTax(info) == 0.0 && SupplySideTax(info) == -1.0;
    assert RequestedEnergy(Some(0.5), 1.0) == 0.5;
    OfferAcceptedIff(cfg, m1, 0, BUYER, Some(0.5), Some(info), None);
    FailedAcceptOfferIsAtomicIff(cfg, m1, 0, BUYER, Some(0.5), Some(info), None);
    assert StepMishap(cfg, matcher, m1, asked) == StrandedResidual(o, 0.5);
    assert STRANDING_RUN[1..] == [asked];
    RunOfTwo(cfg, matcher, EMPTY_MARKET, posted, asked);
  }

  lemma RunOfTwo(cfg: Config, matcher: Matcher, m: Market, a: Action, b: Action)
    requires Valid(m)
    ensures var m1 := Step(cfg, matcher, m, a).0;
            && Valid(m1)
            && Run(cfg, matcher, m, [a, b]) == Step(cfg, matcher, m1, b).0
            && var x, y := StepMishap(cfg, matcher, m, a), StepMishap(cfg, matcher, m1, b);
            && MishapsOf(cfg, matcher, m, [a, b]) == [x, y]
            && EnergyStranded([x, y]) == EnergyStrandedBy(x) + EnergyStrandedBy(y)
            && EnergyLostIn([x, y]) == EnergyLostBy(x) + EnergyLostBy(y)
  {
    hide Step, StepMishap;
    var m1 := Step(cfg, matcher, m, a).0;
    ValidAfterStep(cfg, matcher, m, a);
    assert [a, b][1..] == [b] && [b][1..] == [];
    ValidAfterStep(cfg, matcher, m1, b);
    var x, y := StepMishap(cfg, matcher, m, a), StepMishap(cfg, matcher, m1, b);
    assert Run(cfg, matcher, m1, [b]) == Step(cfg, matcher, m1, b).0;
    assert MishapsOf(cfg, matcher, m1, [b]) == [y];
    assert [x, y][1..] == [y] && [y][1..] == [];
    assert EnergyStranded([y]) == EnergyStrandedBy(y) && EnergyLostIn([y]) == EnergyLostBy(y);
  }
}
