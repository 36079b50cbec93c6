/** The observable state of a market and, for every operation, its net effect: what the caller
    gets back and what the market holds afterwards, also when the call raises. The imperative
    market in TwoSidedMarket.dfy goes through the intermediate dictionaries step by step and is
    proved to end up exactly here. */
module MarketState {
  import opened Numeric
  import opened Books
  import opened Fees

  datatype Error =
    | ReadOnly | OfferNotFound | BidNotFound
    | NegativeEnergyOrder | NegativePriceOrder | NegativeEnergyTrade
    | InvalidTrade | InvalidPair | FeeUndefined

  datatype Result<+T> = Ok(value: T) | Err(error: Error)

  // The settings of a market that never change while it is open.
  datatype Config = Config(fee: FeeClass, oneSided: bool, payAsBid: bool, externalMatching: bool)

  datatype Trade = Trade(
    seller: Trader, buyer: Trader, offer: Option<Order>, bid: Option<Order>,
    tradedEnergy: real, tradePrice: real, feePrice: real, residual: Option<Order>, timeSlot: int)

  // What the listeners of a market are told, in the order in which they are told.
  datatype Event =
    | OfferPosted(offer: Order)
    | OfferDeleted(offer: Order)
    | OfferSplit(original: Order, accepted: Order, residual: Order)
    | OfferTraded(trade: Trade)
    | BidPosted(bid: Order)
    | BidDeleted(bid: Order)
    | BidSplit(original: Order, accepted: Order, residual: Order)
    | BidTraded(trade: Trade)

  datatype Market = Market(
    offers: Book, bids: Book, trades: seq<Trade>,
    marketFee: real, tradedPrice: real, tradedEnergy: real,
    energyOf: map<string, real>, averagePrice: Option<real>,
    nextId: nat, readonly: bool, noNewOrder: bool, events: seq<Event>)

  const EMPTY_MARKET := Market([], [], [], 0.0, 0.0, 0.0, map[], None, 0, false, true, [])

  // An open offer carries at least TOL of energy at a price that is not negative; its id was
  // handed out before.
  ghost predicate OpenOffer(o: Order, nextId: nat) {
    o.energy >= TOL && o.price >= 0.0 && o.id < nextId
  }

  // An open bid carries more than TOL of energy. Its price is only checked before fees.
  ghost predicate OpenBid(o: Order, nextId: nat) {
    o.energy > TOL && o.id < nextId
  }

  ghost predicate OffersValid(b: Book, nextId: nat) {
    Distinct(b) && forall k :: Find(b, k).Some? ==> OpenOffer(Find(b, k).value, nextId)
  }

  ghost predicate BidsValid(b: Book, nextId: nat) {
    Distinct(b) && forall k :: Find(b, k).Some? ==> OpenBid(Find(b, k).value, nextId)
  }

  ghost predicate Valid(m: Market) {
    OffersValid(m.offers, m.nextId) && BidsValid(m.bids, m.nextId)
  }

  // ----- posting and deleting -----

  function IdOr(id: Option<nat>, nextId: nat): nat {
    if id.Some? then id.value else nextId
  }

  function NextIdAfter(id: Option<nat>, nextId: nat): nat {
    if id.Some? then nextId else nextId + 1
  }

  function PostOffer(cfg: Config, m: Market, price: real, energy: real, seller: Trader, offerId: Option<nat>,
                     originalPrice: Option<real>, dispatch: bool, adaptPrice: bool, timeSlot: int)
    : (Market, Result<Order>)
  {
    if m.readonly then (m, Err(ReadOnly))
    else if energy < TOL then (m, Err(NegativeEnergyOrder))
    else
      var original := if originalPrice.Some? then originalPrice.value else price;
      var adapted := if adaptPrice then OfferPriceWithFee(cfg.fee, price, original, energy) else price;
      if adapted < 0.0 then (m, Err(NegativePriceOrder))
      else
        var o := Order(IdOr(offerId, m.nextId), adapted, energy, original, seller, timeSlot);
        (m.(offers := Put(m.offers, o), nextId := NextIdAfter(offerId, m.nextId), noNewOrder := false,
            events := if dispatch then m.events + [OfferPosted(o)] else m.events), Ok(o))
  }

  // The price check comes before the fees are added, and a read-only market takes bids.
  function PostBid(cfg: Config, m: Market, price: real, energy: real, buyer: Trader, bidId: Option<nat>,
                   originalPrice: Option<real>, dispatch: bool, adaptPrice: bool, timeSlot: int)
    : (Market, Result<Order>)
  {
    if energy <= TOL then (m, Err(NegativeEnergyOrder))
    else
      var original := if originalPrice.Some? then originalPrice.value else price;
      var adapted := if adaptPrice then BidPriceWithFee(cfg.fee, price, original, energy) else price;
      if price < 0.0 then (m, Err(NegativePriceOrder))
      else
        var o := Order(IdOr(bidId, m.nextId), adapted, energy, original, buyer, timeSlot);
        (m.(bids := Put(m.bids, o), nextId := NextIdAfter(bidId, m.nextId), noNewOrder := false,
            events := if dispatch then m.events + [BidPosted(o)] else m.events), Ok(o))
  }

  function DeleteOffer(m: Market, id: nat): (Market, Result<Order>) {
    if m.readonly then (m, Err(ReadOnly))
    else match Find(m.offers, id)
      case None => (m, Err(OfferNotFound))
      case Some(o) => (m.(offers := Pop(m.offers, id), events := m.events + [OfferDeleted(o)]), Ok(o))
  }

  function DeleteBid(m: Market, id: nat): (Market, Result<Order>) {
    match Find(m.bids, id)
    case None => (m, Err(BidNotFound))
    case Some(o) => (m.(bids := Pop(m.bids, id), events := m.events + [BidDeleted(o)]), Ok(o))
  }

  // ----- splitting -----

  // The piece that is traded keeps the id of the order it is cut from ...
  function AcceptedPiece(o: Order, energy: real, originalPrice: real): Order
    requires o.energy != 0.0
  {
    Order(o.id, o.price * (energy / o.energy), energy, energy / o.energy * originalPrice, o.trader, o.timeSlot)
  }

  // ... and the residual, posted under a fresh one, gets what is left.
  function ResidualPiece(o: Order, energy: real, originalPrice: real, freshId: nat): Order
    requires o.energy != 0.0
  {
    Order(freshId, (1.0 - energy / o.energy) * o.price, o.energy - energy,
          (o.energy - energy) / o.energy * originalPrice, o.trader, o.timeSlot)
  }

  // ----- trading -----

  // `energy` as the caller asked for it, snapped to the whole order when it is close to it.
  function RequestedEnergy(energy: Option<real>, available: real): real {
    if energy.None? || IsClose(energy.value, available, 0.00000001) then available else energy.value
  }

  // `offer.original_price or offer.price`.
  function OriginalOfferPrice(o: Order): real {
    if o.originalPrice != 0.0 then o.originalPrice else o.price
  }

  // (fee price, trade price) of the offer leg.
  function OfferTradePrice(cfg: Config, portion: real, energy: real, tradeRate: real, info: Option<TradeInfo>,
                           originalPrice: real): Option<(real, real)>
  {
    if cfg.oneSided then
      var fees := if cfg.fee.ConstantFee? then cfg.fee.rate * energy
                  else cfg.fee.rate * originalPrice * portion;
      Some((fees, energy * tradeRate))
    else if info.None? then Some((0.0, energy * tradeRate))
    else match TradePriceAndFees(cfg.fee, info.value)
      case None => None
      case Some(p) => Some((p.feeRate * energy, energy * p.tradeRate))
  }

  // (fee price, trade price) of the bid leg.
  function BidTradePrice(cfg: Config, energy: real, info: TradeInfo): Option<(real, real)> {
    match TradePriceAndFees(cfg.fee, info)
    case None => None
    case Some(p) => Some((p.feeRate * energy, energy * p.tradeRate))
  }

  function AddOrCreate(d: map<string, real>, key: string, x: real): map<string, real> {
    d[key := (if key in d then d[key] else 0.0) + x]
  }

  // The statistics of a booked trade; `order` is the traded order after its price update.
  function Booked(m: Market, t: Trade, order: Order): Market {
    m.(trades := m.trades + [t],
       marketFee := m.marketFee + t.feePrice,
       tradedPrice := m.tradedPrice + t.tradePrice,
       tradedEnergy := m.tradedEnergy + t.tradedEnergy,
       energyOf := AddOrCreate(AddOrCreate(m.energyOf, t.seller.name, order.energy), t.buyer.name, -order.energy),
       averagePrice := None)
  }

  // The outcome of `accept_offer`, given the traded order before its price update and what is
  // left of the market once the accepted offer is out of the book.
  function OfferTradeDone(m: Market, order: Order, residual: Option<Order>, energy: real, price: (real, real),
                          buyer: Trader, bid: Option<Order>): (Market, Result<Trade>)
  {
    var traded := order.(price := price.1);
    var t := Trade(order.trader, buyer, Some(traded), bid, energy, price.1, price.0, residual, order.timeSlot);
    var booked := Booked(m, t, traded);
    (booked.(events := booked.events + [OfferTraded(t)]), Ok(t))
  }

  function AcceptOffer(cfg: Config, m: Market, id: nat, buyer: Trader, energy: Option<real>,
                       info: Option<TradeInfo>, bid: Option<Order>): (Market, Result<Trade>)
    requires Valid(m)
  {
    if m.readonly then (m, Err(ReadOnly))
    else match Find(m.offers, id)
      case None => (m, Err(OfferNotFound))
      case Some(o) =>
        assert OpenOffer(o, m.nextId);
        var e := RequestedEnergy(energy, o.energy);
        var rate := if info.Some? then info.value.tradeRate else o.Rate();
        var original := OriginalOfferPrice(o);
        var rest := Pop(m.offers, id);
        var restored := m.(offers := rest + [o]);
        if Abs(e) < TOL then (restored, Err(InvalidTrade))
        else if o.energy - e > TOL then
          if e < TOL then (restored, Err(NegativeEnergyOrder))
          else
            var accepted := AcceptedPiece(o, e, original);
            var residual := ResidualPiece(o, e, original, m.nextId);
            var split := m.(offers := rest + [residual], nextId := m.nextId + 1, noNewOrder := false,
                            events := m.events + [OfferSplit(o, accepted, residual)]);
            match OfferTradePrice(cfg, 1.0, e, rate, info, original)
            // The restored original joins a residual that nobody takes back.
            case None => (split.(offers := rest + [o, residual]), Err(FeeUndefined))
            case Some(p) => OfferTradeDone(split, accepted, Some(residual), e, p, buyer, bid)
        else if o.energy - e < -TOL then (restored, Err(InvalidTrade))
        else match OfferTradePrice(cfg, 1.0, e, rate, info, original)
          case None => (restored, Err(FeeUndefined))
          case Some(p) => OfferTradeDone(m.(offers := rest), o, None, e, p, buyer, bid)
  }

  function BidTradeDone(m: Market, order: Order, residual: Option<Order>, energy: real, price: (real, real),
                        seller: Trader, offer: Option<Order>): (Market, Result<Trade>)
  {
    var traded := order.(price := price.1);
    var t := Trade(seller, order.trader, offer, Some(traded), energy, price.1, price.0, residual, order.timeSlot);
    // Only a chain trade is booked here: in a match the offer leg already was.
    var booked := if offer.None? then Booked(m, t, traded) else m;
    (booked.(events := booked.events + [BidTraded(t)] +
                       (if residual.Some? then [BidPosted(residual.value)] else [])), Ok(t))
  }

  // The bid leaves the book first and no failure brings it back.
  function AcceptBid(cfg: Config, m: Market, bid: Order, energy: Option<real>, seller: Trader,
                     info: TradeInfo, offer: Option<Order>): (Market, Result<Trade>)
    requires Valid(m)
  {
    match Find(m.bids, bid.id)
    case None => (m, Err(BidNotFound))
    case Some(b) =>
      assert OpenBid(b, m.nextId);
      var e := RequestedEnergy(energy, b.energy);
      var gone := m.(bids := Pop(m.bids, bid.id));
      if e <= 0.0 then (gone, Err(NegativeEnergyTrade))
      else if b.energy - e < -TOL then (gone, Err(InvalidTrade))
      else if b.energy - e > TOL then
        if e <= TOL then (gone, Err(NegativeEnergyOrder))
        else if b.price * (e / b.energy) < 0.0 then (gone, Err(NegativePriceOrder))
        else
          var accepted := AcceptedPiece(b, e, bid.originalPrice);
          var residual := ResidualPiece(b, e, bid.originalPrice, m.nextId);
          var split := gone.(bids := gone.bids + [residual], nextId := m.nextId + 1, noNewOrder := false,
                             events := m.events + [BidSplit(b, accepted, residual)]);
          match BidTradePrice(cfg, e, info)
          case None => (split, Err(FeeUndefined))
          case Some(p) => BidTradeDone(split, accepted, Some(residual), e, p, seller, offer)
      else match BidTradePrice(cfg, e, info)
        case None => (gone, Err(FeeUndefined))
        case Some(p) => BidTradeDone(gone, bid, None, e, p, seller, offer)
  }

  // ----- matching -----

  // A bid/offer pair recommended by the matching engine (`BidOfferMatch`, without requirements):
  // the serialised orders are only read for their ids and origins.
  datatype Recommendation = Recommendation(
    offerId: nat, offerOrigin: Option<string>, bidId: nat, bidOrigin: Option<string>,
    selectedEnergy: real, tradeRate: real)

  // The order with the recommended id or else the first one of the recommended origin.
  function Resolve(b: Book, id: nat, origin: Option<string>): Option<Order> {
    if Find(b, id).Some? then Find(b, id)
    else if origin.None? then None
    else FindByOrigin(b, origin.value)
  }

  predicate ValidMatch(offer: Order, bid: Order, rec: Recommendation)
    requires offer.energy != 0.0 && bid.energy != 0.0
  {
    && rec.selectedEnergy > 0.0
    && rec.selectedEnergy <= bid.energy
    && rec.selectedEnergy <= offer.energy
    && !(bid.Rate() + TOL < rec.tradeRate)
    && !(offer.Rate() > rec.tradeRate + TOL)
  }

  // `bid.accumulated_grid_fees` is the difference between the device's price and the bid's.
  function OriginalBidRate(bid: Order): real
    requires bid.energy != 0.0
  {
    bid.Rate() + (bid.originalPrice - bid.price) / bid.energy
  }

  function ClearingInfo(cfg: Config, offer: Order, bid: Order, clearingRate: real): Option<TradeInfo>
    requires offer.energy != 0.0 && bid.energy != 0.0
  {
    var original := OriginalBidRate(bid);
    var rate := if cfg.payAsBid then Some(original)
                else OriginalTradeRate(cfg.fee, original, bid.Rate(), clearingRate);
    match rate
    case None => None
    case Some(r) => Some(TradeInfo(original, bid.Rate(), offer.OriginalRate(), offer.Rate(), r))
  }

  // One bid/offer pair: the offer leg first, then the bid leg.
  function AcceptPair(cfg: Config, m: Market, bid: Order, offer: Order, info: TradeInfo, energy: real)
    : (r: (Market, Result<(Trade, Trade)>))
    requires Valid(m)
  {
    var (m1, r1) := AcceptOffer(cfg, m, offer.id, bid.trader, Some(energy), Some(info), Some(bid));
    match r1
    case Err(x) => (m1, Err(x))
    case Ok(offerTrade) =>
      ValidAfterAcceptOffer(cfg, m, offer.id, bid.trader, Some(energy), Some(info), Some(bid));
      var (m2, r2) := AcceptBid(cfg, m1, bid, Some(energy), offer.trader, info, Some(offer));
      match r2
      case Err(x) => (m2, Err(x))
      case Ok(bidTrade) => (m2, Ok((offerTrade, bidTrade)))
  }

  datatype PairOutcome =
    | Traded(market: Market, offerTrade: Trade, bidTrade: Trade)
    | Skipped
    | Raised(market: Market, error: Error)

  // What `match_recommendations` does with the recommendation at the head of its list.
  function MatchOne(cfg: Config, m: Market, rec: Recommendation): PairOutcome
    requires Valid(m)
  {
    match Resolve(m.offers, rec.offerId, rec.offerOrigin)
    case None => Raised(m, InvalidPair)
    case Some(offer) =>
      match Resolve(m.bids, rec.bidId, rec.bidOrigin)
      case None => Raised(m, InvalidPair)
      case Some(bid) =>
        ResolvedIsOpen(m, rec.offerId, rec.offerOrigin, rec.bidId, rec.bidOrigin);
        if offer.trader.uuid == bid.trader.uuid then Skipped
        else if !ValidMatch(offer, bid, rec) then
          if cfg.externalMatching then Raised(m, InvalidPair) else Skipped
        else match ClearingInfo(cfg, offer, bid, rec.tradeRate)
          case None => Raised(m, FeeUndefined)
          case Some(info) =>
            var energy := Min(Min(rec.selectedEnergy, offer.energy), bid.energy);
            var (m', r) := AcceptPair(cfg, m, bid, offer, info, energy);
            match r
            case Err(x) => Raised(m', x)
            case Ok((offerTrade, bidTrade)) => Traded(m', offerTrade, bidTrade)
  }

  // Later recommendations of a split order are pointed at its residual.
  function RewriteOne(rec: Recommendation, offerTrade: Trade, bidTrade: Trade): Recommendation {
    var r1 :=
      if offerTrade.offer.Some? && rec.offerId == offerTrade.offer.value.id && offerTrade.residual.Some?
      then rec.(offerId := offerTrade.residual.value.id,
                offerOrigin := offerTrade.residual.value.trader.originUuid)
      else rec;
    if bidTrade.bid.Some? && rec.bidId == bidTrade.bid.value.id && bidTrade.residual.Some?
    then r1.(bidId := bidTrade.residual.value.id, bidOrigin := bidTrade.residual.value.trader.originUuid)
    else r1
  }

  function Rewrite(recs: seq<Recommendation>, offerTrade: Trade, bidTrade: Trade): (r: seq<Recommendation>)
    ensures |r| == |recs|
    ensures forall i :: 0 <= i < |recs| ==> r[i] == RewriteOne(recs[i], offerTrade, bidTrade)
  {
    seq(|recs|, i requires 0 <= i < |recs| => RewriteOne(recs[i], offerTrade, bidTrade))
  }

  function MatchAll(cfg: Config, m: Market, recs: seq<Recommendation>, traded: bool): (Market, Result<bool>)
    requires Valid(m)
    decreases |recs|
  {
    if recs == [] then (m, Ok(traded))
    else match MatchOne(cfg, m, recs[0])
      case Raised(m', x) => (m', Err(x))
      case Skipped => MatchAll(cfg, m, recs[1..], traded)
      case Traded(m', offerTrade, bidTrade) =>
        ValidAfterMatchOne(cfg, m, recs[0]);
        MatchAll(cfg, m', Rewrite(recs[1..], offerTrade, bidTrade), true)
  }

  // ----- every operation keeps the market valid -----

  lemma ResolvedIsOpen(m: Market, offerId: nat, offerOrigin: Option<string>, bidId: nat, bidOrigin: Option<string>)
    requires Valid(m)
    ensures var o := Resolve(m.offers, offerId, offerOrigin);
            o.Some? ==> o.value in m.offers && Find(m.offers, o.value.id) == o && OpenOffer(o.value, m.nextId)
    ensures var b := Resolve(m.bids, bidId, bidOrigin);
            b.Some? ==> b.value in m.bids && Find(m.bids, b.value.id) == b && OpenBid(b.value, m.nextId)
  {
    ResolveIn(m.offers, offerId, offerOrigin);
    ResolveIn(m.bids, bidId, bidOrigin);
  }

  lemma ResolveIn(b: Book, id: nat, origin: Option<string>)
    requires Distinct(b)
    ensures var o := Resolve(b, id, origin); o.Some? ==> o.value in b && Find(b, o.value.id) == o
  {
    FindIn(b, id);
    var o := Resolve(b, id, origin);
    if Find(b, id).None? && o.Some? {
      FindByOriginIn(b, origin.value);
      InFind(b, o.value);
    }
  }

  lemma SplitIsPositive(o: Order, energy: real, originalPrice: real, freshId: nat)
    requires o.energy > 0.0 && o.price >= 0.0 && 0.0 <= energy <= o.energy
    ensures AcceptedPiece(o, energy, originalPrice).price >= 0.0
    ensures ResidualPiece(o, energy, originalPrice, freshId).price >= 0.0
  {
    var share := energy / o.energy;
    assert 0.0 <= share <= 1.0;
  }

  lemma ShareInside(energy: real, whole: real)
    requires 0.0 < energy < whole
    ensures 0.0 < energy / whole < 1.0
  {
    var share := energy / whole;
    if share >= 1.0 {
      TimesAtLeastOne(share, whole);
    }
  }

  lemma TimesAtLeastOne(share: real, whole: real)
    requires share >= 1.0 && whole > 0.0
    ensures share * whole >= whole
  {
    assert (share - 1.0) * whole >= 0.0;
  }

  // A bid whose accepted piece has a price the market takes leaves a residual it takes, too.
  lemma SplitKeepsSign(o: Order, energy: real)
    requires 0.0 < energy < o.energy && o.price * (energy / o.energy) >= 0.0
    ensures (1.0 - energy / o.energy) * o.price >= 0.0
  {
    ShareInside(energy, o.energy);
    assert o.price >= 0.0;
  }

  lemma FreshOffer(b: Book, nextId: nat)
    requires OffersValid(b, nextId)
    ensures Find(b, nextId).None?
  {
    FindIn(b, nextId);
  }

  lemma FreshBid(b: Book, nextId: nat)
    requires BidsValid(b, nextId)
    ensures Find(b, nextId).None?
  {
    FindIn(b, nextId);
  }

  lemma OffersValidWith(b: Book, nextId: nat, o: Order)
    requires OffersValid(b, nextId) && OpenOffer(o, nextId) && Find(b, o.id).None?
    ensures OffersValid(b + [o], nextId)
  {
    AfterAppend(b, o);
  }

  lemma BidsValidWith(b: Book, nextId: nat, o: Order)
    requires BidsValid(b, nextId) && OpenBid(o, nextId) && Find(b, o.id).None?
    ensures BidsValid(b + [o], nextId)
  {
    AfterAppend(b, o);
  }

  lemma PostBothOfferPieces(b: Book, nextId: nat, accepted: Order, residual: Order)
    requires OffersValid(b, nextId) && accepted.id < nextId == residual.id
    ensures Put(Pop(b, accepted.id), accepted) == Pop(b, accepted.id) + [accepted]
    ensures Put(Pop(b, accepted.id) + [accepted], residual) == Pop(b, accepted.id) + [accepted, residual]
  {
    FreshOffer(b, nextId);
    PutBothPieces(b, accepted, residual);
  }

  lemma PostBothBidPieces(b: Book, nextId: nat, accepted: Order, residual: Order)
    requires BidsValid(b, nextId) && accepted.id < nextId == residual.id
    ensures Put(Pop(b, accepted.id), accepted) == Pop(b, accepted.id) + [accepted]
    ensures Put(Pop(b, accepted.id) + [accepted], residual) == Pop(b, accepted.id) + [accepted, residual]
  {
    FreshBid(b, nextId);
    PutBothPieces(b, accepted, residual);
  }

  lemma BidsValidWithout(b: Book, nextId: nat, id: nat)
    requires BidsValid(b, nextId)
    ensures BidsValid(Pop(b, id), nextId)
  {
    AfterPop(b, id);
  }

  // The books `accept_offer` can leave behind.
  lemma OfferBooksValid(b: Book, nextId: nat, id: nat)
    requires OffersValid(b, nextId) && Find(b, id).Some?
    ensures Find(b, id).value.id == id
    ensures OffersValid(Pop(b, id), nextId)
    ensures OffersValid(Pop(b, id) + [Find(b, id).value], nextId)
  {
    FindIn(b, id);
    AfterPop(b, id);
    OffersValidWith(Pop(b, id), nextId, Find(b, id).value);
  }

  lemma SplitOfferBooksValid(b: Book, nextId: nat, id: nat, residual: Order)
    requires OffersValid(b, nextId) && Find(b, id).Some?
    requires residual.id == nextId && OpenOffer(residual, nextId + 1)
    ensures OffersValid(Pop(b, id) + [residual], nextId + 1)
    ensures OffersValid(Pop(b, id) + [Find(b, id).value, residual], nextId + 1)
  {
    var o, rest := Find(b, id).value, Pop(b, id);
    OfferBooksValid(b, nextId, id);
    FreshOffer(rest, nextId);
    FreshOffer(rest + [o], nextId);
    OffersValidWith(rest, nextId + 1, residual);
    OffersValidWith(rest + [o], nextId + 1, residual);
    assert rest + [o] + [residual] == rest + [o, residual];
  }

  lemma ValidAfterAcceptOffer(cfg: Config, m: Market, id: nat, buyer: Trader, energy: Option<real>,
                              info: Option<TradeInfo>, bid: Option<Order>)
    requires Valid(m)
    ensures Valid(AcceptOffer(cfg, m, id, buyer, energy, info, bid).0)
  {
    if !m.readonly && Find(m.offers, id).Some? {
      var o := Find(m.offers, id).value;
      OfferBooksValid(m.offers, m.nextId, id);
      var e := RequestedEnergy(energy, o.energy);
      if o.energy - e > TOL && e >= TOL {
        SplitIsPositive(o, e, OriginalOfferPrice(o), m.nextId);
        SplitOfferBooksValid(m.offers, m.nextId, id, ResidualPiece(o, e, OriginalOfferPrice(o), m.nextId));
      }
    }
  }

  lemma SplitBidBookValid(b: Book, nextId: nat, id: nat, residual: Order)
    requires BidsValid(b, nextId) && residual.id == nextId && OpenBid(residual, nextId + 1)
    ensures BidsValid(Pop(b, id), nextId)
    ensures BidsValid(Pop(b, id) + [residual], nextId + 1)
  {
    AfterPop(b, id);
    FreshBid(Pop(b, id), nextId);
    BidsValidWith(Pop(b, id), nextId + 1, residual);
  }

  // The books `accept_bid` can leave behind: the bid is gone, whatever happened, and a residual
  // is there only after a split.
  lemma AcceptBidBooks(cfg: Config, m: Market, bid: Order, energy: Option<real>, seller: Trader,
                       info: TradeInfo, offer: Option<Order>)
    requires Valid(m) && Find(m.bids, bid.id).Some?
    ensures var b := Find(m.bids, bid.id).value;
            var e := RequestedEnergy(energy, b.energy);
            var r := AcceptBid(cfg, m, bid, energy, seller, info, offer).0;
            && r.offers == m.offers
            && ((r.bids == Pop(m.bids, bid.id) && r.nextId == m.nextId) ||
                (b.energy - e > TOL && e > TOL && r.nextId == m.nextId + 1 &&
                 r.bids == Pop(m.bids, bid.id) + [ResidualPiece(b, e, bid.originalPrice, m.nextId)]))
  {
  }

  lemma ValidAfterAcceptBid(cfg: Config, m: Market, bid: Order, energy: Option<real>, seller: Trader,
                            info: TradeInfo, offer: Option<Order>)
    requires Valid(m)
    ensures Valid(AcceptBid(cfg, m, bid, energy, seller, info, offer).0)
  {
    if Find(m.bids, bid.id).Some? {
      var b := Find(m.bids, bid.id).value;
      var e := RequestedEnergy(energy, b.energy);
      var r := AcceptBid(cfg, m, bid, energy, seller, info, offer).0;
      AcceptBidBooks(cfg, m, bid, energy, seller, info, offer);
      BidsValidWithout(m.bids, m.nextId, bid.id);
      assert r.offers == m.offers;
      if r.bids != Pop(m.bids, bid.id) {
        SplitBidBookValid(m.bids, m.nextId, bid.id, ResidualPiece(b, e, bid.originalPrice, m.nextId));
      }
    }
  }

  lemma ValidAfterMatchOne(cfg: Config, m: Market, rec: Recommendation)
    requires Valid(m)
    ensures var r := MatchOne(cfg, m, rec); !r.Skipped? ==> Valid(r.market)
  {
    ResolvedIsOpen(m, rec.offerId, rec.offerOrigin, rec.bidId, rec.bidOrigin);
    var offer := Resolve(m.offers, rec.offerId, rec.offerOrigin);
    var bid := Resolve(m.bids, rec.bidId, rec.bidOrigin);
    if offer.Some? && bid.Some? && ClearingInfo(cfg, offer.value, bid.value, rec.tradeRate).Some? {
      var info := ClearingInfo(cfg, offer.value, bid.value, rec.tradeRate).value;
      var energy := Min(Min(rec.selectedEnergy, offer.value.energy), bid.value.energy);
      ValidAfterAcceptOffer(cfg, m, offer.value.id, bid.value.trader, Some(energy), Some(info), bid);
      var m1 := AcceptOffer(cfg, m, offer.value.id, bid.value.trader, Some(energy), Some(info), bid).0;
      ValidAfterAcceptBid(cfg, m1, bid.value, Some(energy), offer.value.trader, info, offer);
    }
  }

  lemma {:induction false} ValidAfterMatchAll(cfg: Config, m: Market, recs: seq<Recommendation>, traded: bool)
    requires Valid(m)
    ensures Valid(MatchAll(cfg, m, recs, traded).0)
    decreases |recs|
  {
    if recs != [] {
      ValidAfterMatchOne(cfg, m, recs[0]);
      match MatchOne(cfg, m, recs[0])
      case Raised(_, _) =>
      case Skipped => ValidAfterMatchAll(cfg, m, recs[1..], traded);
      case Traded(m', ot, bt) => ValidAfterMatchAll(cfg, m', Rewrite(recs[1..], ot, bt), true);
    }
  }

  lemma ValidAfterPostOffer(cfg: Config, m: Market, price: real, energy: real, seller: Trader,
                            originalPrice: Option<real>, dispatch: bool, adaptPrice: bool, timeSlot: int)
    requires Valid(m)
    ensures Valid(PostOffer(cfg, m, price, energy, seller, None, originalPrice, dispatch, adaptPrice, timeSlot).0)
  {
    var (m1, r) := PostOffer(cfg, m, price, energy, seller, None, originalPrice, dispatch, adaptPrice, timeSlot);
    if r.Ok? {
      FreshOffer(m.offers, m.nextId);
      PutFresh(m.offers, r.value);
      OffersValidWith(m.offers, m.nextId + 1, r.value);
    }
  }

  lemma ValidAfterPostBid(cfg: Config, m: Market, price: real, energy: real, buyer: Trader,
                          originalPrice: Option<real>, dispatch: bool, adaptPrice: bool, timeSlot: int)
    requires Valid(m)
    ensures Valid(PostBid(cfg, m, price, energy, buyer, None, originalPrice, dispatch, adaptPrice, timeSlot).0)
  {
    var (m1, r) := PostBid(cfg, m, price, energy, buyer, None, originalPrice, dispatch, adaptPrice, timeSlot);
    if r.Ok? {
      FreshBid(m.bids, m.nextId);
      PutFresh(m.bids, r.value);
      BidsValidWith(m.bids, m.nextId + 1, r.value);
    }
  }

  lemma ValidAfterDeleting(m: Market, id: nat)
    requires Valid(m)
    ensures Valid(DeleteOffer(m, id).0) && Valid(DeleteBid(m, id).0)
  {
    AfterPop(m.offers, id);
    AfterPop(m.bids, id);
  }
}
