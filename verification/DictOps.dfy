/** The dictionary operations a market operation performs, in order. The market in
    TwoSidedMarket.dfy logs those it performs, and is proved to perform exactly these. */
module DictOps {
  import opened Numeric
  import opened Books
  import opened Fees
  import opened MarketState

  datatype DictOp = Assign(order: Order) | Take(id: nat)

  // What an action does to the offers and to the bids, in order.
  datatype Ops = Ops(onOffers: seq<DictOp>, onBids: seq<DictOp>)

  const NOTHING := Ops([], [])

  function Then(first: Ops, second: Ops): Ops {
    Ops(first.onOffers + second.onOffers, first.onBids + second.onBids)
  }

  function AcceptOfferOps(cfg: Config, m: Market, id: nat, energy: Option<real>, info: Option<TradeInfo>): seq<DictOp>
    requires Valid(m)
  {
    if m.readonly then []
    else match Find(m.offers, id)
      case None => [Take(id)]
      case Some(o) =>
        assert OpenOffer(o, m.nextId);
        var e := RequestedEnergy(energy, o.energy);
        var original := OriginalOfferPrice(o);
        var priced := cfg.oneSided || info.None? || TradePriceAndFees(cfg.fee, info.value).Some?;
        if Abs(e) < TOL || o.energy - e < -TOL then [Take(id), Assign(o)]
        else if o.energy - e <= TOL then [Take(id)] + (if priced then [Take(id)] else [Assign(o)])
        // split_offer takes the offer out once more and posts both pieces.
        else if e < TOL then [Take(id), Take(id), Assign(o)]
        else [Take(id), Take(id), Assign(AcceptedPiece(o, e, original)),
              Assign(ResidualPiece(o, e, original, m.nextId))] + (if priced then [Take(id)] else [Assign(o)])
  }

  function AcceptBidOps(cfg: Config, m: Market, bid: Order, energy: Option<real>): seq<DictOp>
    requires Valid(m)
  {
    match Find(m.bids, bid.id)
    case None => [Take(bid.id)]
    case Some(b) =>
      assert OpenBid(b, m.nextId);
      var e := RequestedEnergy(energy, b.energy);
      if e <= 0.0 || b.energy - e <= TOL then [Take(bid.id)]
      else if e <= TOL || b.price * (e / b.energy) < 0.0 then [Take(bid.id), Take(bid.id)]
      else [Take(bid.id), Take(bid.id), Assign(AcceptedPiece(b, e, bid.originalPrice)),
            Assign(ResidualPiece(b, e, bid.originalPrice, m.nextId)), Take(bid.id)]
  }

  function PairOps(cfg: Config, m: Market, bid: Order, offer: Order, info: TradeInfo, energy: real): Ops
    requires Valid(m)
  {
    var (m1, r) := AcceptOffer(cfg, m, offer.id, bid.trader, Some(energy), Some(info), Some(bid));
    ValidAfterAcceptOffer(cfg, m, offer.id, bid.trader, Some(energy), Some(info), Some(bid));
    Ops(AcceptOfferOps(cfg, m, offer.id, Some(energy), Some(info)),
        if r.Ok? then AcceptBidOps(cfg, m1, bid, Some(energy)) else [])
  }

  function MatchOneOps(cfg: Config, m: Market, rec: Recommendation): Ops
    requires Valid(m)
  {
    var offer := Resolve(m.offers, rec.offerId, rec.offerOrigin);
    var bid := Resolve(m.bids, rec.bidId, rec.bidOrigin);
    if offer.None? || bid.None? then NOTHING
    else
      ResolvedIsOpen(m, rec.offerId, rec.offerOrigin, rec.bidId, rec.bidOrigin);
      var o, b := offer.value, bid.value;
      if o.trader.uuid == b.trader.uuid || !ValidMatch(o, b, rec) then NOTHING
      else match ClearingInfo(cfg, o, b, rec.tradeRate)
        case None => NOTHING
        case Some(info) =>
          PairOps(cfg, m, b, o, info, Min(Min(rec.selectedEnergy, o.energy), b.energy))
  }

  function MatchAllOps(cfg: Config, m: Market, recs: seq<Recommendation>): Ops
    requires Valid(m)
    decreases |recs|
  {
    if recs == [] then NOTHING
    else match MatchOne(cfg, m, recs[0])
      case Raised(_, _) => MatchOneOps(cfg, m, recs[0])
      case Skipped => MatchAllOps(cfg, m, recs[1..])
      case Traded(m', offerTrade, bidTrade) =>
        ValidAfterMatchOne(cfg, m, recs[0]);
        Then(MatchOneOps(cfg, m, recs[0]), MatchAllOps(cfg, m', Rewrite(recs[1..], offerTrade, bidTrade)))
  }
}
