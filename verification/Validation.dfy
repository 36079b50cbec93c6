/** Which recommendations a market takes, with the bounds written out on the orders' own prices and
    energies, and what a pair that is taken is settled at. */
module Validation {
  import opened Numeric
  import opened Books
  import opened Fees
  import opened MarketState
  import opened Acceptance
  import opened Conservation
  import opened BidConservation

  // The selected energy is there on both sides, and at the recommended rate the bid pays no more than it
  // offers and the offer gets no less than it asks, up to TOL per unit of energy.
  predicate WithinBid(rec: Recommendation, bid: Order) {
    0.0 < rec.selectedEnergy <= bid.energy && rec.tradeRate * bid.energy <= bid.price + TOL * bid.energy
  }

  predicate WithinOffer(rec: Recommendation, offer: Order) {
    0.0 < rec.selectedEnergy <= offer.energy && rec.tradeRate * offer.energy >= offer.price - TOL * offer.energy
  }

  lemma RateBounds(o: Order, rate: real)
    requires o.energy > 0.0
    ensures o.Rate() + TOL < rate <==> rate * o.energy > o.price + TOL * o.energy
    ensures o.Rate() > rate + TOL <==> rate * o.energy < o.price - TOL * o.energy
  {
    assert o.Rate() * o.energy == o.price;
    SameOrder(o.Rate() + TOL, rate, o.energy);
    SameOrder(rate + TOL, o.Rate(), o.energy);
  }

  lemma SameOrder(x: real, y: real, factor: real)
    requires factor > 0.0
    ensures x < y <==> x * factor < y * factor
  {
    if x < y {
      assert (y - x) * factor > 0.0;
    } else {
      assert (x - y) * factor >= 0.0;
    }
  }

  lemma BoundsAreChecked(offer: Order, bid: Order, rec: Recommendation)
    requires offer.energy > 0.0 && bid.energy > 0.0
    ensures ValidMatch(offer, bid, rec) <==> WithinBid(rec, bid) && WithinOffer(rec, offer)
  {
    RateBounds(bid, rec.tradeRate);
    RateBounds(offer, rec.tradeRate);
  }

  // ----- entries that do not trade -----

  // An entry outside of the bounds is passed over, or ends the call if the algorithm is an external
  // one; nothing happens to the market.
  lemma OutsideIsRefused(cfg: Config, m: Market, rec: Recommendation, rest: seq<Recommendation>, traded: bool)
    requires Valid(m) && Find(m.offers, rec.offerId).Some? && Find(m.bids, rec.bidId).Some?
    requires Find(m.offers, rec.offerId).value.trader.uuid != Find(m.bids, rec.bidId).value.trader.uuid
    requires !WithinBid(rec, Find(m.bids, rec.bidId).value) || !WithinOffer(rec, Find(m.offers, rec.offerId).value)
    ensures MatchAll(cfg, m, [rec] + rest, traded) ==
            if cfg.externalMatching then (m, Err(InvalidPair)) else MatchAll(cfg, m, rest, traded)
  {
    ResolvedIsOpen(m, rec.offerId, rec.offerOrigin, rec.bidId, rec.bidOrigin);
    BoundsAreChecked(Find(m.offers, rec.offerId).value, Find(m.bids, rec.bidId).value, rec);
    assert ([rec] + rest)[1..] == rest;
  }

  // Nobody is matched with an order of its own.
  lemma OwnPairIsPassedOver(cfg: Config, m: Market, rec: Recommendation, rest: seq<Recommendation>, traded: bool)
    requires Valid(m) && Find(m.offers, rec.offerId).Some? && Find(m.bids, rec.bidId).Some?
    requires Find(m.offers, rec.offerId).value.trader.uuid == Find(m.bids, rec.bidId).value.trader.uuid
    ensures MatchAll(cfg, m, [rec] + rest, traded) == MatchAll(cfg, m, rest, traded)
  {
    ResolvedIsOpen(m, rec.offerId, rec.offerOrigin, rec.bidId, rec.bidOrigin);
    assert ([rec] + rest)[1..] == rest;
  }

  // No order of the book has the id, and none stems from the origin, if there is one.
  ghost predicate Unknown(b: Book, id: nat, origin: Option<string>) {
    Find(b, id).None? && (origin.Some? ==> forall o :: o in b ==> o.trader.originUuid != origin)
  }

  lemma UnknownIsRefused(cfg: Config, m: Market, rec: Recommendation, rest: seq<Recommendation>, traded: bool)
    requires Valid(m)
    requires Unknown(m.offers, rec.offerId, rec.offerOrigin) || Unknown(m.bids, rec.bidId, rec.bidOrigin)
    ensures MatchAll(cfg, m, [rec] + rest, traded) == (m, Err(InvalidPair))
  {
    if rec.offerOrigin.Some? {
      FindByOriginIn(m.offers, rec.offerOrigin.value);
    }
    if rec.bidOrigin.Some? {
      FindByOriginIn(m.bids, rec.bidOrigin.value);
    }
    assert [rec] + rest != [];
  }

  // An id that is gone stands for the first open order of its origin.
  lemma OriginStandsIn(cfg: Config, m: Market, rec: Recommendation, i: nat, rest: seq<Recommendation>, traded: bool)
    requires Valid(m) && i < |m.offers| && Find(m.offers, rec.offerId).None? && rec.offerOrigin.Some?
    requires m.offers[i].trader.originUuid == rec.offerOrigin
    requires forall j :: 0 <= j < i ==> m.offers[j].trader.originUuid != rec.offerOrigin
    ensures MatchAll(cfg, m, [rec] + rest, traded) ==
            MatchAll(cfg, m, [rec.(offerId := m.offers[i].id)] + rest, traded)
  {
    FirstOfOrigin(m.offers, rec.offerOrigin.value, i);
    InFind(m.offers, m.offers[i]);
    var other := rec.(offerId := m.offers[i].id);
    SameFirstEntry(cfg, m, rec, other);
    assert ([rec] + rest)[1..] == rest && ([other] + rest)[1..] == rest;
  }

  lemma OriginStandsInForBids(cfg: Config, m: Market, rec: Recommendation, i: nat, rest: seq<Recommendation>,
                              traded: bool)
    requires Valid(m) && i < |m.bids| && Find(m.bids, rec.bidId).None? && rec.bidOrigin.Some?
    requires m.bids[i].trader.originUuid == rec.bidOrigin
    requires forall j :: 0 <= j < i ==> m.bids[j].trader.originUuid != rec.bidOrigin
    ensures MatchAll(cfg, m, [rec] + rest, traded) ==
            MatchAll(cfg, m, [rec.(bidId := m.bids[i].id)] + rest, traded)
  {
    FirstOfOrigin(m.bids, rec.bidOrigin.value, i);
    InFind(m.bids, m.bids[i]);
    var other := rec.(bidId := m.bids[i].id);
    SameFirstEntry(cfg, m, rec, other);
    assert ([rec] + rest)[1..] == rest && ([other] + rest)[1..] == rest;
  }

  lemma SameFirstEntry(cfg: Config, m: Market, rec: Recommendation, other: Recommendation)
    requires Valid(m) && rec.selectedEnergy == other.selectedEnergy && rec.tradeRate == other.tradeRate
    requires Resolve(m.offers, rec.offerId, rec.offerOrigin) == Resolve(m.offers, other.offerId, other.offerOrigin)
    requires Resolve(m.bids, rec.bidId, rec.bidOrigin) == Resolve(m.bids, other.bidId, other.bidOrigin)
    ensures MatchOne(cfg, m, rec) == MatchOne(cfg, m, other)
  {
    ResolvedIsOpen(m, rec.offerId, rec.offerOrigin, rec.bidId, rec.bidOrigin);
    hide AcceptPair;
  }

  lemma {:induction false} FirstOfOrigin(b: Book, origin: string, i: nat)
    requires i < |b| && b[i].trader.originUuid == Some(origin)
    requires forall j :: 0 <= j < i ==> b[j].trader.originUuid != Some(origin)
    ensures FindByOrigin(b, origin) == Some(b[i])
  {
    if i > 0 {
      FirstOfOrigin(b[1..], origin, i - 1);
    }
  }

  // ----- entries that trade -----

  // A trade that was announced was recommended, within the bounds, and is between different traders.
  ghost predicate Recommended(recs: seq<Recommendation>, e: Event) {
    && (e.OfferTraded? ==>
          && e.trade.bid.Some? && e.trade.seller.uuid != e.trade.buyer.uuid
          && exists rec :: rec in recs && WithinBid(rec, e.trade.bid.value))
    && (e.BidTraded? ==>
          && e.trade.offer.Some? && e.trade.seller.uuid != e.trade.buyer.uuid
          && exists rec :: rec in recs && WithinOffer(rec, e.trade.offer.value))
  }

  ghost predicate AllRecommended(recs: seq<Recommendation>, m: Market, m': Market) {
    m.events <= m'.events && forall e :: e in m'.events[|m.events|..] ==> Recommended(recs, e)
  }

  lemma OfferLegIsRecommended(cfg: Config, m: Market, bid: Order, offer: Order, info: TradeInfo, energy: real,
                              rec: Recommendation)
    requires Valid(m) && Find(m.offers, offer.id) == Some(offer)
    requires WithinBid(rec, bid) && offer.trader.uuid != bid.trader.uuid
    ensures AllRecommended([rec], m, AcceptOffer(cfg, m, offer.id, bid.trader, Some(energy), Some(info), Some(bid)).0)
  {
    hide AcceptOffer, WithinBid, WithinOffer, AboutBids, RequestedEnergy, OfferTradePrice, BookAfter, AcceptedPiece;
    var (m1, r) := AcceptOffer(cfg, m, offer.id, bid.trader, Some(energy), Some(info), Some(bid));
    assert rec in [rec];
    if r.Ok? {
      AcceptedOfferEffect(cfg, m, offer.id, bid.trader, Some(energy), Some(info), Some(bid));
    } else {
      RefusalAnnouncesNoTrade(cfg, m, offer.id, bid.trader, Some(energy), Some(info), Some(bid));
    }
  }

  lemma RefusalAnnouncesNoTrade(cfg: Config, m: Market, id: nat, buyer: Trader, energy: Option<real>,
                                info: Option<TradeInfo>, bid: Option<Order>)
    requires Valid(m) && AcceptOffer(cfg, m, id, buyer, energy, info, bid).1.Err?
    ensures var m' := AcceptOffer(cfg, m, id, buyer, energy, info, bid).0;
            m.events <= m'.events && forall e :: e in m'.events[|m.events|..] ==> e.OfferSplit?
  {
    hide Pop, OfferTradePrice, AcceptedPiece, ResidualPiece, RequestedEnergy;
  }

  lemma BidLegIsRecommended(cfg: Config, m: Market, bid: Order, offer: Order, info: TradeInfo, energy: real,
                            rec: Recommendation)
    requires Valid(m) && Find(m.bids, bid.id) == Some(bid)
    requires WithinOffer(rec, offer) && offer.trader.uuid != bid.trader.uuid
    ensures AllRecommended([rec], m, AcceptBid(cfg, m, bid, Some(energy), offer.trader, info, Some(offer)).0)
  {
    hide AcceptBid, WithinBid, WithinOffer, RequestedEnergy, BidTradePrice, BookAfter, AcceptedPiece;
    var (m1, r) := AcceptBid(cfg, m, bid, Some(energy), offer.trader, info, Some(offer));
    assert rec in [rec];
    if r.Ok? {
      AcceptedBidEffect(cfg, m, bid, Some(energy), offer.trader, info, Some(offer));
    } else {
      var news := FailedAcceptBidNews(cfg, m, bid, Some(energy), offer.trader, info, Some(offer));
      assert m1.events[|m.events|..] == news;
    }
  }

  lemma RecommendedBoth(recs: seq<Recommendation>, m: Market, m1: Market, m2: Market)
    requires AllRecommended(recs, m, m1) && AllRecommended(recs, m1, m2)
    ensures AllRecommended(recs, m, m2)
  {
    assert m2.events[|m.events|..] == m1.events[|m.events|..] + m2.events[|m1.events|..];
  }

  predicate SameTerms(rec: Recommendation, other: Recommendation) {
    rec.selectedEnergy == other.selectedEnergy && rec.tradeRate == other.tradeRate
  }

  // A recommendation is only ever pointed at another order.
  lemma RecommendedByMore(recs: seq<Recommendation>, more: seq<Recommendation>, m: Market, m': Market)
    requires AllRecommended(recs, m, m')
    requires forall rec :: rec in recs ==> exists other :: other in more && SameTerms(rec, other)
    ensures AllRecommended(more, m, m')
  {
    forall e | e in m'.events[|m.events|..] ensures Recommended(more, e) {
      assert Recommended(recs, e);
      if e.OfferTraded? {
        var rec :| rec in recs && WithinBid(rec, e.trade.bid.value);
        var other :| other in more && SameTerms(rec, other);
        assert WithinBid(other, e.trade.bid.value);
      } else if e.BidTraded? {
        var rec :| rec in recs && WithinOffer(rec, e.trade.offer.value);
        var other :| other in more && SameTerms(rec, other);
        assert WithinOffer(other, e.trade.offer.value);
      }
    }
  }

  lemma PairIsRecommended(cfg: Config, m: Market, bid: Order, offer: Order, info: TradeInfo, energy: real,
                          rec: Recommendation)
    requires Valid(m) && Find(m.offers, offer.id) == Some(offer) && Find(m.bids, bid.id) == Some(bid)
    requires WithinBid(rec, bid) && WithinOffer(rec, offer) && offer.trader.uuid != bid.trader.uuid
    ensures AllRecommended([rec], m, AcceptPair(cfg, m, bid, offer, info, energy).0)
  {
    hide AcceptOffer, AcceptBid, WithinBid, WithinOffer, AllRecommended, AboutBids, Valid;
    OfferLegIsRecommended(cfg, m, bid, offer, info, energy, rec);
    ValidAfterAcceptOffer(cfg, m, offer.id, bid.trader, Some(energy), Some(info), Some(bid));
    var m1 := AcceptOffer(cfg, m, offer.id, bid.trader, Some(energy), Some(info), Some(bid)).0;
    var _ := NewsOfAcceptOffer(cfg, m, offer.id, bid.trader, Some(energy), Some(info), Some(bid));
    BidLegIsRecommended(cfg, m1, bid, offer, info, energy, rec);
    RecommendedBoth([rec], m, m1, AcceptBid(cfg, m1, bid, Some(energy), offer.trader, info, Some(offer)).0);
  }

  lemma NothingNew(recs: seq<Recommendation>, m: Market)
    ensures AllRecommended(recs, m, m)
  {
    assert m.events[|m.events|..] == [];
  }

  lemma EntryIsRecommended(cfg: Config, m: Market, rec: Recommendation)
    requires Valid(m) && !MatchOne(cfg, m, rec).Skipped?
    ensures AllRecommended([rec], m, MatchOne(cfg, m, rec).market)
  {
    hide AcceptPair, WithinBid, WithinOffer, AllRecommended, ClearingInfo;
    NothingNew([rec], m);
    ResolvedIsOpen(m, rec.offerId, rec.offerOrigin, rec.bidId, rec.bidOrigin);
    var offer := Resolve(m.offers, rec.offerId, rec.offerOrigin);
    var bid := Resolve(m.bids, rec.bidId, rec.bidOrigin);
    if offer.Some? && bid.Some? && ClearingInfo(cfg, offer.value, bid.value, rec.tradeRate).Some? &&
       offer.value.trader.uuid != bid.value.trader.uuid && ValidMatch(offer.value, bid.value, rec) {
      BoundsAreChecked(offer.value, bid.value, rec);
      PairIsRecommended(cfg, m, bid.value, offer.value, ClearingInfo(cfg, offer.value, bid.value, rec.tradeRate).value,
                        Min(Min(rec.selectedEnergy, offer.value.energy), bid.value.energy), rec);
    }
  }

  // Whatever a batch ends with, every trade it announces was recommended within the bounds: the bid of
  // the offer's trade, and the offer of the bid's, as they were open before.
  lemma {:induction false} TradesAreWithinBounds(cfg: Config, m: Market, recs: seq<Recommendation>, traded: bool)
    requires Valid(m)
    ensures AllRecommended(recs, m, MatchAll(cfg, m, recs, traded).0)
    decreases |recs|
  {
    hide MatchOne, AllRecommended;
    NothingNew(recs, m);
    if recs != [] {
      var rec, tail := recs[0], recs[1..];
      assert rec in recs && forall x :: x in tail ==> x in recs;
      if !MatchOne(cfg, m, rec).Skipped? {
        EntryIsRecommended(cfg, m, rec);
        RecommendedByMore([rec], recs, m, MatchOne(cfg, m, rec).market);
      }
      match MatchOne(cfg, m, rec)
      case Raised(_, _) =>
      case Skipped =>
        TradesAreWithinBounds(cfg, m, tail, traded);
        RecommendedByMore(tail, recs, m, MatchAll(cfg, m, tail, traded).0);
      case Traded(m1, ot, bt) =>
        ValidAfterMatchOne(cfg, m, rec);
        var rest := Rewrite(tail, ot, bt);
        TradesAreWithinBounds(cfg, m1, rest, true);
        RewrittenTerms(tail, recs, ot, bt);
        RecommendedByMore(rest, recs, m1, MatchAll(cfg, m1, rest, true).0);
        RecommendedBoth(recs, m, m1, MatchAll(cfg, m1, rest, true).0);
    }
  }

  lemma RewrittenTerms(tail: seq<Recommendation>, recs: seq<Recommendation>, ot: Trade, bt: Trade)
    requires forall x :: x in tail ==> x in recs
    ensures forall rec :: rec in Rewrite(tail, ot, bt) ==> exists other :: other in recs && SameTerms(rec, other)
  {
    var rest := Rewrite(tail, ot, bt);
    forall rec | rec in rest
      ensures exists other :: other in recs && SameTerms(rec, other)
    {
      var i :| 0 <= i < |rest| && rest[i] == rec;
      assert tail[i] in tail && SameTerms(rec, tail[i]);
    }
  }
}
