/** The two-sided market itself: dictionaries, counters and accumulators updated in place, one
    statement at a time, as the repository's market classes do. Listeners are represented by the
    log of what they are told. */
module TwoSided {
  import opened Numeric
  import opened Books
  import opened Fees
  import opened MarketState
  import opened DictOps
  import Spec = MarketState

  // round(x, 4), ties aside.
  function Round4(x: real): real {
    (x * 10000.0 + 0.5).Floor as real / 10000.0
  }

  function AverageTradePrice(m: Market): real {
    if m.tradedEnergy != 0.0 then Round4(m.tradedPrice / m.tradedEnergy) else 0.0
  }

  // An offer trade whose price is settled; the accepted piece is still in the book.
  datatype PreparedTrade = PreparedTrade(order: Order, residual: Option<Order>, price: (real, real))

  function PreparedOfferTrade(cfg: Config, m: Market, offer: Order, energy: real, tradeRate: real,
                              info: Option<TradeInfo>): (Market, Result<PreparedTrade>)
    requires OpenOffer(offer, m.nextId)
  {
    var original := OriginalOfferPrice(offer);
    if Abs(energy) < TOL then (m, Err(InvalidTrade))
    else if offer.energy - energy > TOL then
      if energy < TOL then (m, Err(NegativeEnergyOrder))
      else
        var accepted := AcceptedPiece(offer, energy, original);
        var residual := ResidualPiece(offer, energy, original, m.nextId);
        var split := m.(offers := m.offers + [accepted, residual], nextId := m.nextId + 1, noNewOrder := false,
                        events := m.events + [OfferSplit(offer, accepted, residual)]);
        match OfferTradePrice(cfg, 1.0, energy, tradeRate, info, original)
        case None => (split, Err(FeeUndefined))
        case Some(p) => (split, Ok(PreparedTrade(accepted, Some(residual), p)))
    else if offer.energy - energy < -TOL then (m, Err(InvalidTrade))
    else match OfferTradePrice(cfg, 1.0, energy, tradeRate, info, original)
      case None => (m, Err(FeeUndefined))
      case Some(p) => (m, Ok(PreparedTrade(offer, None, p)))
  }

  function CompletedBidTrade(cfg: Config, m: Market, order: Order, residual: Option<Order>, energy: real,
                             seller: Trader, info: TradeInfo, offer: Option<Order>): (Market, Result<Trade>)
  {
    match BidTradePrice(cfg, energy, info)
    case None => (m, Err(FeeUndefined))
    case Some(p) => BidTradeDone(m, order, residual, energy, p, seller, offer)
  }

  // The net effect of accept_bid, in its steps: pop, split if need be, complete.
  lemma StepsOfAcceptBid(cfg: Config, m: Market, bid: Order, energy: Option<real>, seller: Trader, info: TradeInfo,
                         offer: Option<Order>)
    requires Valid(m)
    ensures var out := AcceptBid(cfg, m, bid, energy, seller, info, offer);
            match Find(m.bids, bid.id)
            case None => out == (m, Err(BidNotFound))
            case Some(b) =>
              OpenBid(b, m.nextId) &&
              var e, gone := RequestedEnergy(energy, b.energy), m.(bids := Pop(m.bids, bid.id));
              && (e <= 0.0 ==> out == (gone, Err(NegativeEnergyTrade)))
              && (e > 0.0 && b.energy - e < -TOL ==> out == (gone, Err(InvalidTrade)))
              && (e > 0.0 && -TOL <= b.energy - e <= TOL ==>
                    out == CompletedBidTrade(cfg, gone, bid, None, e, seller, info, offer))
              && (e > 0.0 && b.energy - e > TOL ==>
                    if e <= TOL then out == (gone, Err(NegativeEnergyOrder))
                    else if b.price * (e / b.energy) < 0.0 then out == (gone, Err(NegativePriceOrder))
                    else
                      var accepted := AcceptedPiece(b, e, bid.originalPrice);
                      var residual := ResidualPiece(b, e, bid.originalPrice, m.nextId);
                      var split := gone.(bids := gone.bids + [residual], nextId := m.nextId + 1, noNewOrder := false,
                                         events := m.events + [BidSplit(b, accepted, residual)]);
                      out == CompletedBidTrade(cfg, split, accepted, Some(residual), e, seller, info, offer))
  {
    hide Pop, AcceptedPiece, ResidualPiece, RequestedEnergy, BidTradePrice, BidTradeDone;
    FindIn(m.bids, bid.id);
  }

  lemma NoOfferToAccept(cfg: Config, m: Market, id: nat, buyer: Trader, energy: Option<real>,
                        info: Option<TradeInfo>, bid: Option<Order>)
    requires Valid(m) && (m.readonly || Find(m.offers, id).None?)
    ensures AcceptOffer(cfg, m, id, buyer, energy, info, bid) ==
            (m, Err(if m.readonly then ReadOnly else OfferNotFound))
  {
  }

  // The net effect of accept_offer is that of its steps: pop, prepare, then either put the offer
  // back or take the traded piece out and book the trade.
  lemma StepsOfAcceptOffer(cfg: Config, m: Market, id: nat, buyer: Trader, energy: Option<real>,
                           info: Option<TradeInfo>, bid: Option<Order>)
    requires Valid(m) && !m.readonly && Find(m.offers, id).Some? && OpenOffer(Find(m.offers, id).value, m.nextId)
    ensures var offer := Find(m.offers, id).value;
            var e := RequestedEnergy(energy, offer.energy);
            var rate := if info.Some? then info.value.tradeRate else offer.Rate();
            var (m1, p) := PreparedOfferTrade(cfg, m.(offers := Pop(m.offers, id)), offer, e, rate, info);
            AcceptOffer(cfg, m, id, buyer, energy, info, bid) ==
            if p.Err? then (m1.(offers := Put(m1.offers, offer)), Err(p.error))
            else OfferTradeDone(m1.(offers := Pop(m1.offers, p.value.order.id)), p.value.order, p.value.residual,
                                e, p.value.price, buyer, bid)
  {
    var offer, rest := Find(m.offers, id).value, Pop(m.offers, id);
    var e := RequestedEnergy(energy, offer.energy);
    var original := OriginalOfferPrice(offer);
    FoundAndGone(m.offers, id);
    PutFresh(rest, offer);
    if offer.energy - e > TOL {
      var accepted, residual := AcceptedPiece(offer, e, original), ResidualPiece(offer, e, original, m.nextId);
      RestoreBesideResidual(rest, accepted, residual, offer);
      PopAcceptedPiece(rest, accepted, residual);
    }
  }

  // ----- what is done to the dictionaries -----

  // Out comes the order, and both pieces go in if the first is accepted.
  function SplitOps(id: nat, r: Result<(Order, Order)>): seq<DictOp> {
    if r.Ok? then [Take(id), Assign(r.value.0), Assign(r.value.1)] else [Take(id)]
  }

  lemma SplitLogs(log: Ops, id: nat, accepted: Order, residual: Order)
    ensures Then(Then(Then(log, Ops([Take(id)], [])), Ops([Assign(accepted)], [])), Ops([Assign(residual)], [])) ==
            Then(log, Ops([Take(id), Assign(accepted), Assign(residual)], []))
    ensures Then(Then(Then(log, Ops([], [Take(id)])), Ops([], [Assign(accepted)])), Ops([], [Assign(residual)])) ==
            Then(log, Ops([], [Take(id), Assign(accepted), Assign(residual)]))
  {
    OpsInTurn(log, [Take(id)], [Assign(accepted)], [Assign(residual)]);
    assert [Take(id)] + [Assign(accepted)] + [Assign(residual)] == [Take(id), Assign(accepted), Assign(residual)];
  }

  lemma NoOps(log: Ops)
    ensures Then(log, Ops([], [])) == log && Then(NOTHING, log) == log
  {
  }

  lemma InTurn(log: Ops, first: Ops, second: Ops)
    ensures Then(Then(log, first), second) == Then(log, Then(first, second))
  {
    Regroup(log.onOffers, first.onOffers, second.onOffers);
    Regroup(log.onBids, first.onBids, second.onBids);
  }

  function PreparedOps(offer: Order, energy: real, nextId: nat): seq<DictOp>
    requires offer.energy != 0.0
  {
    if Abs(energy) < TOL || offer.energy - energy <= TOL then []
    else if energy < TOL then [Take(offer.id)]
    else [Take(offer.id), Assign(AcceptedPiece(offer, energy, OriginalOfferPrice(offer))),
          Assign(ResidualPiece(offer, energy, OriginalOfferPrice(offer), nextId))]
  }

  lemma AcceptOfferLogs(log: Ops, cfg: Config, m: Market, id: nat, energy: Option<real>, info: Option<TradeInfo>)
    requires Valid(m)
    ensures m.readonly ==> Then(log, Ops(AcceptOfferOps(cfg, m, id, energy, info), [])) == log
    ensures !m.readonly && Find(m.offers, id).None? ==> AcceptOfferOps(cfg, m, id, energy, info) == [Take(id)]
    ensures !m.readonly && Find(m.offers, id).Some? ==>
              var o := Find(m.offers, id).value;
              OpenOffer(o, m.nextId) &&
              var e := RequestedEnergy(energy, o.energy);
              var rate := if info.Some? then info.value.tradeRate else o.Rate();
              var p := PreparedOfferTrade(cfg, m.(offers := Pop(m.offers, id)), o, e, rate, info).1;
              var last := if p.Err? then Assign(o) else Take(p.value.order.id);
              Then(Then(Then(log, Ops([Take(id)], [])), Ops(PreparedOps(o, e, m.nextId), [])), Ops([last], [])) ==
              Then(log, Ops(AcceptOfferOps(cfg, m, id, energy, info), []))
  {
    hide Pop, PreparedOfferTrade, PreparedOps, RequestedEnergy;
    NoOps(log);
    if !m.readonly && Find(m.offers, id).Some? {
      var o := Find(m.offers, id).value;
      var last := OpsOfAcceptOffer(cfg, m, id, energy, info);
      OpsInTurn(log, [Take(id)], PreparedOps(o, RequestedEnergy(energy, o.energy), m.nextId), [last]);
    }
  }

  lemma OpsOfAcceptOffer(cfg: Config, m: Market, id: nat, energy: Option<real>, info: Option<TradeInfo>)
    returns (last: DictOp)
    requires Valid(m) && !m.readonly && Find(m.offers, id).Some?
    ensures var o := Find(m.offers, id).value;
            OpenOffer(o, m.nextId) &&
            var e := RequestedEnergy(energy, o.energy);
            var rate := if info.Some? then info.value.tradeRate else o.Rate();
            var p := PreparedOfferTrade(cfg, m.(offers := Pop(m.offers, id)), o, e, rate, info).1;
            && last == (if p.Err? then Assign(o) else Take(p.value.order.id))
            && AcceptOfferOps(cfg, m, id, energy, info) == [Take(id)] + PreparedOps(o, e, m.nextId) + [last]
  {
    hide Pop, AcceptedPiece, ResidualPiece, RequestedEnergy, TradePriceAndFees;
    FindIn(m.offers, id);
    var o := Find(m.offers, id).value;
    var e := RequestedEnergy(energy, o.energy);
    var rate := if info.Some? then info.value.tradeRate else o.Rate();
    var p := PreparedOfferTrade(cfg, m.(offers := Pop(m.offers, id)), o, e, rate, info).1;
    last := if p.Err? then Assign(o) else Take(p.value.order.id);
    PieceIds(o, e, OriginalOfferPrice(o), m.nextId);
  }

  lemma PieceIds(o: Order, energy: real, originalPrice: real, freshId: nat)
    requires o.energy != 0.0
    ensures AcceptedPiece(o, energy, originalPrice).id == o.id
    ensures ResidualPiece(o, energy, originalPrice, freshId).id == freshId
  {
  }

  lemma OpsInTurn(log: Ops, a: seq<DictOp>, b: seq<DictOp>, c: seq<DictOp>)
    ensures Then(Then(Then(log, Ops(a, [])), Ops(b, [])), Ops(c, [])) == Then(log, Ops(a + b + c, []))
    ensures Then(Then(Then(log, Ops([], a)), Ops([], b)), Ops([], c)) == Then(log, Ops([], a + b + c))
  {
    Regroup(log.onOffers, a, b);
    Regroup(log.onOffers, a + b, c);
    Regroup(log.onBids, a, b);
    Regroup(log.onBids, a + b, c);
    assert log.onOffers + [] == log.onOffers && log.onBids + [] == log.onBids;
  }

  lemma AcceptBidLogs(log: Ops, cfg: Config, m: Market, bid: Order, energy: Option<real>)
    requires Valid(m)
    ensures Find(m.bids, bid.id).None? ==> AcceptBidOps(cfg, m, bid, energy) == [Take(bid.id)]
    ensures Find(m.bids, bid.id).Some? ==>
              var b := Find(m.bids, bid.id).value;
              var e := RequestedEnergy(energy, b.energy);
              var out := Then(log, Ops([], [Take(bid.id)]));
              OpenBid(b, m.nextId) &&
              if e <= 0.0 || b.energy - e <= TOL then Then(log, Ops([], AcceptBidOps(cfg, m, bid, energy))) == out
              else if e <= TOL || b.price * (e / b.energy) < 0.0
              then Then(out, Ops([], [Take(bid.id)])) == Then(log, Ops([], AcceptBidOps(cfg, m, bid, energy)))
              else
                var split := [Take(bid.id), Assign(AcceptedPiece(b, e, bid.originalPrice)),
                              Assign(ResidualPiece(b, e, bid.originalPrice, m.nextId))];
                Then(Then(out, Ops([], split)), Ops([], [Take(bid.id)])) ==
                Then(log, Ops([], AcceptBidOps(cfg, m, bid, energy)))
  {
    hide AcceptedPiece, ResidualPiece, RequestedEnergy;
    if Find(m.bids, bid.id).Some? {
      var b := Find(m.bids, bid.id).value;
      var e := RequestedEnergy(energy, b.energy);
      assert OpenBid(b, m.nextId);
      var split: seq<DictOp> := [Take(bid.id), Assign(AcceptedPiece(b, e, bid.originalPrice)),
                                 Assign(ResidualPiece(b, e, bid.originalPrice, m.nextId))];
      OpsInTurn(log, [Take(bid.id)], split, [Take(bid.id)]);
      OpsInTurn(log, [Take(bid.id)], [Take(bid.id)], []);
      NoOps(Then(Then(log, Ops([], [Take(bid.id)])), Ops([], [Take(bid.id)])));
    }
  }

  class TwoSidedMarket {
    const cfg: Config
    var offers: Book
    var bids: Book
    var trades: seq<Trade>
    var marketFee: real
    var accumulatedTradePrice: real
    var accumulatedTradeEnergy: real
    var tradedEnergy: map<string, real>
    var averagePrice: Option<real>
    var nextId: nat
    var readonly: bool
    var noNewOrder: bool
    var events: seq<Event>
    // What has been done to the dictionary of the offers, and to that of the bids.
    ghost var log: Ops

    function State(): Market
      reads this
    {
      Market(offers, bids, trades, marketFee, accumulatedTradePrice, accumulatedTradeEnergy,
             tradedEnergy, averagePrice, nextId, readonly, noNewOrder, events)
    }

    constructor (cfg: Config)
      ensures this.cfg == cfg && State() == EMPTY_MARKET && Valid(State())
    {
      this.cfg := cfg;
      offers, bids, trades, events := [], [], [], [];
      marketFee, accumulatedTradePrice, accumulatedTradeEnergy := 0.0, 0.0, 0.0;
      tradedEnergy, averagePrice := map[], None;
      nextId, readonly, noNewOrder := 0, false, true;
      log := NOTHING;
    }

    method TakeOffer(id: nat) returns (found: Option<Order>)
      modifies this`offers, this`log
      ensures found == Find(old(offers), id) && offers == Pop(old(offers), id)
      ensures log == Then(old(log), Ops([Take(id)], []))
    {
      found := Find(offers, id);
      offers := Pop(offers, id);
      log := Then(log, Ops([Take(id)], []));
    }

    method AssignOffer(offer: Order)
      modifies this`offers, this`log
      ensures offers == Put(old(offers), offer)
      ensures log == Then(old(log), Ops([Assign(offer)], []))
    {
      offers := Put(offers, offer);
      log := Then(log, Ops([Assign(offer)], []));
    }

    method TakeBid(id: nat) returns (found: Option<Order>)
      modifies this`bids, this`log
      ensures found == Find(old(bids), id) && bids == Pop(old(bids), id)
      ensures log == Then(old(log), Ops([], [Take(id)]))
    {
      found := Find(bids, id);
      bids := Pop(bids, id);
      log := Then(log, Ops([], [Take(id)]));
    }

    method AssignBid(bid: Order)
      modifies this`bids, this`log
      ensures bids == Put(old(bids), bid)
      ensures log == Then(old(log), Ops([], [Assign(bid)]))
    {
      bids := Put(bids, bid);
      log := Then(log, Ops([], [Assign(bid)]));
    }

    method NewId() returns (id: nat)
      modifies this`nextId
      ensures id == old(nextId) && nextId == old(nextId) + 1
    {
      id := nextId;
      nextId := nextId + 1;
    }

    method Notify(e: Event)
      modifies this`events
      ensures events == old(events) + [e]
    {
      events := events + [e];
    }

    method Offer(price: real, energy: real, seller: Trader, offerId: Option<nat>, originalPrice: Option<real>,
                 dispatch: bool, adaptPrice: bool, timeSlot: int) returns (r: Result<Order>)
      modifies this
      ensures (State(), r) == Spec.PostOffer(cfg, old(State()), price, energy, seller, offerId, originalPrice,
                                             dispatch, adaptPrice, timeSlot)
      ensures log == if r.Ok? then Then(old(log), Ops([Assign(r.value)], [])) else old(log)
    {
      hide Put, OfferPriceWithFee, Then;
      if readonly {
        return Err(ReadOnly);
      }
      if energy < TOL {
        return Err(NegativeEnergyOrder);
      }
      var original := if originalPrice.Some? then originalPrice.value else price;
      var adapted := price;
      if adaptPrice {
        adapted := OfferPriceWithFee(cfg.fee, price, original, energy);
      }
      if adapted < 0.0 {
        return Err(NegativePriceOrder);
      }
      var id;
      if offerId.None? {
        id := NewId();
      } else {
        id := offerId.value;
      }
      var offer := Order(id, adapted, energy, original, seller, timeSlot);
      AssignOffer(offer);
      if dispatch {
        Notify(OfferPosted(offer));
      }
      noNewOrder := false;
      return Ok(offer);
    }

    method Bid(price: real, energy: real, buyer: Trader, bidId: Option<nat>, originalPrice: Option<real>,
               dispatch: bool, adaptPrice: bool, timeSlot: int) returns (r: Result<Order>)
      modifies this
      ensures (State(), r) == Spec.PostBid(cfg, old(State()), price, energy, buyer, bidId, originalPrice,
                                           dispatch, adaptPrice, timeSlot)
      ensures log == if r.Ok? then Then(old(log), Ops([], [Assign(r.value)])) else old(log)
    {
      hide Put, BidPriceWithFee, Then;
      if energy <= TOL {
        return Err(NegativeEnergyOrder);
      }
      var original := if originalPrice.Some? then originalPrice.value else price;
      var adapted := price;
      if adaptPrice {
        adapted := BidPriceWithFee(cfg.fee, price, original, energy);
      }
      if price < 0.0 {
        return Err(NegativePriceOrder);
      }
      var id;
      if bidId.None? {
        id := NewId();
      } else {
        id := bidId.value;
      }
      var bid := Order(id, adapted, energy, original, buyer, timeSlot);
      AssignBid(bid);
      if dispatch {
        Notify(BidPosted(bid));
      }
      noNewOrder := false;
      return Ok(bid);
    }

    method DeleteOffer(id: nat) returns (r: Result<Order>)
      modifies this
      ensures (State(), r) == Spec.DeleteOffer(old(State()), id)
      ensures log == if readonly then old(log) else Then(old(log), Ops([Take(id)], []))
    {
      if readonly {
        return Err(ReadOnly);
      }
      var found := TakeOffer(id);
      if found.None? {
        PopAbsent(old(offers), id);
        return Err(OfferNotFound);
      }
      Notify(OfferDeleted(found.value));
      return Ok(found.value);
    }

    method DeleteBid(id: nat) returns (r: Result<Order>)
      modifies this
      ensures (State(), r) == Spec.DeleteBid(old(State()), id)
      ensures log == Then(old(log), Ops([], [Take(id)]))
    {
      var found := TakeBid(id);
      if found.None? {
        PopAbsent(old(bids), id);
        return Err(BidNotFound);
      }
      Notify(BidDeleted(found.value));
      return Ok(found.value);
    }

    // Cuts an offer in two. The accepted piece is posted under the offer's own id, so when its
    // posting is refused the offer is simply missing from the book.
    method SplitOffer(original: Order, energy: real, originalPrice: real) returns (r: Result<(Order, Order)>)
      requires Valid(State()) && !readonly
      requires OpenOffer(original, nextId) && original.energy - energy > TOL
      modifies this
      ensures r.Err? <==> energy < TOL
      ensures r.Err? ==> r.error == NegativeEnergyOrder &&
                         State() == old(State()).(offers := Pop(old(offers), original.id))
      ensures r.Ok? ==>
                var accepted := AcceptedPiece(original, energy, originalPrice);
                var residual := ResidualPiece(original, energy, originalPrice, old(nextId));
                r.value == (accepted, residual) &&
                State() == old(State()).(
                    offers := Pop(old(offers), original.id) + [accepted, residual],
                    nextId := old(nextId) + 1, noNewOrder := false,
                    events := old(events) + [Event.OfferSplit(original, accepted, residual)])
      ensures log == Then(old(log), Ops(SplitOps(original.id, r), []))
    {
      hide OffersValid, BidsValid, Pop, Put, Then;
      var _ := TakeOffer(original.id);
      var piece := AcceptedPiece(original, energy, originalPrice);
      var rest' := ResidualPiece(original, energy, originalPrice, nextId);
      if energy >= TOL {
        SplitIsPositive(original, energy, originalPrice, nextId);
        PostBothOfferPieces(old(offers), nextId, piece, rest');
      }
      var accepted := Offer(piece.price, energy, original.trader, Some(original.id), Some(piece.originalPrice),
                            false, false, original.timeSlot);
      if accepted.Err? {
        return Err(accepted.error);
      }
      var residual := Offer(rest'.price, original.energy - energy, original.trader, None,
                            Some(rest'.originalPrice), false, false, original.timeSlot);
      Notify(Event.OfferSplit(original, accepted.value, residual.value));
      SplitLogs(old(log), original.id, accepted.value, residual.value);
      return Ok((accepted.value, residual.value));
    }

    // Cuts a bid in two, like SplitOffer; a bid's price may turn out negative.
    method SplitBid(original: Order, energy: real, originalPrice: real) returns (r: Result<(Order, Order)>)
      requires Valid(State())
      requires OpenBid(original, nextId) && energy > 0.0 && original.energy - energy > TOL
      modifies this
      ensures r.Err? <==> energy <= TOL || original.price * (energy / original.energy) < 0.0
      ensures r.Err? ==> r.error == (if energy <= TOL then NegativeEnergyOrder else NegativePriceOrder) &&
                         State() == old(State()).(bids := Pop(old(bids), original.id))
      ensures r.Ok? ==>
                var accepted := AcceptedPiece(original, energy, originalPrice);
                var residual := ResidualPiece(original, energy, originalPrice, old(nextId));
                r.value == (accepted, residual) &&
                State() == old(State()).(
                    bids := Pop(old(bids), original.id) + [accepted, residual],
                    nextId := old(nextId) + 1, noNewOrder := false,
                    events := old(events) + [Event.BidSplit(original, accepted, residual)])
      ensures log == Then(old(log), Ops([], SplitOps(original.id, r)))
    {
      hide OffersValid, BidsValid, Pop, Put, Then;
      var _ := TakeBid(original.id);
      var piece := AcceptedPiece(original, energy, originalPrice);
      var rest' := ResidualPiece(original, energy, originalPrice, nextId);
      PostBothBidPieces(old(bids), nextId, piece, rest');
      var accepted := Bid(piece.price, energy, original.trader, Some(original.id), Some(piece.originalPrice),
                          false, false, original.timeSlot);
      if accepted.Err? {
        return Err(accepted.error);
      }
      SplitKeepsSign(original, energy);
      var residual := Bid(rest'.price, original.energy - energy, original.trader, None,
                          Some(rest'.originalPrice), false, false, original.timeSlot);
      Notify(Event.BidSplit(original, accepted.value, residual.value));
      SplitLogs(old(log), original.id, accepted.value, residual.value);
      return Ok((accepted.value, residual.value));
    }

    method UpdateStatsAfterTrade(trade: Trade, order: Order)
      modifies this
      ensures State() == Booked(old(State()), trade, order) && log == old(log)
    {
      hide AddOrCreate;
      trades := trades + [trade];
      marketFee := marketFee + trade.feePrice;
      accumulatedTradePrice := accumulatedTradePrice + trade.tradePrice;
      accumulatedTradeEnergy := accumulatedTradeEnergy + trade.tradedEnergy;
      tradedEnergy := AddOrCreate(tradedEnergy, trade.seller.name, order.energy);
      tradedEnergy := AddOrCreate(tradedEnergy, trade.buyer.name, -order.energy);
      averagePrice := None;
    }

    // The part of accept_offer that may raise; the offer is out of the book when it starts.
    method PrepareOfferTrade(offer: Order, energy: real, tradeRate: real, info: Option<TradeInfo>)
      returns (r: Result<PreparedTrade>)
      requires Valid(State()) && !readonly && OpenOffer(offer, nextId) && Find(offers, offer.id).None?
      modifies this
      ensures (State(), r) == PreparedOfferTrade(cfg, old(State()), offer, energy, tradeRate, info)
      ensures log == Then(old(log), Ops(PreparedOps(offer, energy, old(nextId)), []))
    {
      hide Then, Pop;
      NoOps(log);
      var originalPrice := OriginalOfferPrice(offer);
      if Abs(energy) < TOL {
        return Err(InvalidTrade);
      }
      if offer.energy - energy > TOL {
        PopAbsent(offers, offer.id);
        var pieces := SplitOffer(offer, energy, originalPrice);
        if pieces.Err? {
          return Err(pieces.error);
        }
        var (accepted, residual) := pieces.value;
        var price := OfferTradePrice(cfg, energy / accepted.energy, energy, tradeRate, info, originalPrice);
        if price.None? {
          return Err(FeeUndefined);
        }
        assert energy / accepted.energy == 1.0;
        return Ok(PreparedTrade(accepted, Some(residual), price.value));
      }
      if offer.energy - energy < -TOL {
        return Err(InvalidTrade);
      }
      var price := OfferTradePrice(cfg, 1.0, energy, tradeRate, info, originalPrice);
      if price.None? {
        return Err(FeeUndefined);
      }
      return Ok(PreparedTrade(offer, None, price.value));
    }

    // Pops the offer first; any failure up to the trade puts it back and re-raises.
    method AcceptOffer(offerId: nat, buyer: Trader, energy: Option<real>, info: Option<TradeInfo>,
                       bid: Option<Order>) returns (r: Result<Trade>)
      requires Valid(State())
      modifies this
      ensures (State(), r) == Spec.AcceptOffer(cfg, old(State()), offerId, buyer, energy, info, bid)
      ensures log == Then(old(log), Ops(AcceptOfferOps(cfg, old(State()), offerId, energy, info), []))
    {
      hide Spec.AcceptOffer, PreparedOfferTrade, Then, AcceptOfferOps, PreparedOps, Pop, Put, RequestedEnergy;
      AcceptOfferLogs(old(log), cfg, State(), offerId, energy, info);
      if readonly {
        NoOfferToAccept(cfg, State(), offerId, buyer, energy, info, bid);
        return Err(ReadOnly);
      }
      var found := TakeOffer(offerId);
      if found.None? {
        NoOfferToAccept(cfg, old(State()), offerId, buyer, energy, info, bid);
        PopAbsent(old(offers), offerId);
        return Err(OfferNotFound);
      }
      var offer := found.value;
      FoundAndGone(old(offers), offerId);
      OfferBooksValid(old(offers), nextId, offerId);
      var e := RequestedEnergy(energy, offer.energy);
      var tradeRate := if info.Some? then info.value.tradeRate else offer.Rate();
      var prepared := PrepareOfferTrade(offer, e, tradeRate, info);
      StepsOfAcceptOffer(cfg, old(State()), offerId, buyer, energy, info, bid);
      if prepared.Err? {
        AssignOffer(offer);
        return Err(prepared.error);
      }
      var PreparedTrade(order, residual, price) := prepared.value;
      var _ := TakeOffer(order.id);
      var traded := order.(price := price.1);
      var trade := Trade(traded.trader, buyer, Some(traded), bid, e, price.1, price.0, residual, traded.timeSlot);
      UpdateStatsAfterTrade(trade, traded);
      Notify(OfferTraded(trade));
      return Ok(trade);
    }

    // Pops the bid first; a failure loses it.
    method AcceptBid(bid: Order, energy: Option<real>, seller: Trader, info: TradeInfo, offer: Option<Order>)
      returns (r: Result<Trade>)
      requires Valid(State())
      modifies this
      ensures (State(), r) == Spec.AcceptBid(cfg, old(State()), bid, energy, seller, info, offer)
      ensures log == Then(old(log), Ops([], AcceptBidOps(cfg, old(State()), bid, energy)))
    {
      hide Spec.AcceptBid, CompletedBidTrade, OffersValid, BidsValid, Pop, Put, Find, Then, AcceptBidOps, AcceptedPiece,
           ResidualPiece, RequestedEnergy;
      StepsOfAcceptBid(cfg, State(), bid, energy, seller, info, offer);
      AcceptBidLogs(old(log), cfg, State(), bid, energy);
      var found := TakeBid(bid.id);
      if found.None? {
        PopAbsent(old(bids), bid.id);
        return Err(BidNotFound);
      }
      var marketBid := found.value;
      ghost var rest := bids;
      FoundAndGone(old(bids), bid.id);
      BidsValidWithout(old(bids), nextId, bid.id);
      var e := RequestedEnergy(energy, marketBid.energy);
      if e <= 0.0 {
        return Err(NegativeEnergyTrade);
      }
      if marketBid.energy - e < -TOL {
        return Err(InvalidTrade);
      }
      var order, residual := bid, None;
      if marketBid.energy - e > TOL {
        var pieces := SplitBid(marketBid, e, bid.originalPrice);
        if pieces.Err? {
          return Err(pieces.error);
        }
        order, residual := pieces.value.0, Some(pieces.value.1);
        PieceIds(marketBid, e, bid.originalPrice, old(nextId));
        PopAcceptedPiece(rest, order, residual.value);
        var _ := TakeBid(order.id);
      }
      r := CompleteBidTrade(order, residual, e, seller, info, offer);
    }

    // The last part of accept_bid; the bid is out of the book when it starts.
    method CompleteBidTrade(order: Order, residual: Option<Order>, energy: real, seller: Trader, info: TradeInfo,
                            offer: Option<Order>) returns (r: Result<Trade>)
      modifies this
      ensures (State(), r) == CompletedBidTrade(cfg, old(State()), order, residual, energy, seller, info, offer)
      ensures log == old(log)
    {
      hide BidTradePrice;
      var price := BidTradePrice(cfg, energy, info);
      if price.None? {
        return Err(FeeUndefined);
      }
      var traded := order.(price := price.value.1);
      var trade := Trade(seller, traded.trader, offer, Some(traded), energy, price.value.1, price.value.0, residual,
                         traded.timeSlot);
      if offer.None? {
        UpdateStatsAfterTrade(trade, traded);
      }
      Notify(BidTraded(trade));
      assert events + [] == events;
      if residual.Some? {
        Notify(BidPosted(residual.value));
      }
      return Ok(trade);
    }

    method AcceptBidOfferPair(bid: Order, offer: Order, info: TradeInfo, energy: real)
      returns (r: Result<(Trade, Trade)>)
      requires Valid(State())
      modifies this
      ensures (State(), r) == AcceptPair(cfg, old(State()), bid, offer, info, energy)
      ensures log == Then(old(log), PairOps(cfg, old(State()), bid, offer, info, energy))
    {
      hide Spec.AcceptOffer, Spec.AcceptBid, AcceptOfferOps, AcceptBidOps;
      ValidAfterAcceptOffer(cfg, State(), offer.id, bid.trader, Some(energy), Some(info), Some(bid));
      var offerTrade := AcceptOffer(offer.id, bid.trader, Some(energy), Some(info), Some(bid));
      if offerTrade.Err? {
        return Err(offerTrade.error);
      }
      var bidTrade := AcceptBid(bid, Some(energy), offer.trader, info, Some(offer));
      if bidTrade.Err? {
        return Err(bidTrade.error);
      }
      return Ok((offerTrade.value, bidTrade.value));
    }

    // Consumes the list from the front while rewriting the rest of it.
    method MatchRecommendations(recommendations: seq<Recommendation>) returns (r: Result<bool>)
      requires Valid(State())
      modifies this
      ensures (State(), r) == MatchAll(cfg, old(State()), recommendations, false)
      ensures log == Then(old(log), MatchAllOps(cfg, old(State()), recommendations))
      ensures Valid(State())
    {
      hide Then, PairOps, AcceptPair;
      var recs, wereTradesPerformed := recommendations, false;
      ghost var start := State();
      ValidAfterMatchAll(cfg, start, recommendations, false);
      while recs != []
        invariant Valid(State())
        invariant MatchAll(cfg, start, recommendations, false) == MatchAll(cfg, State(), recs, wereTradesPerformed)
        invariant Then(log, MatchAllOps(cfg, State(), recs)) == Then(old(log), MatchAllOps(cfg, start, recommendations))
        decreases |recs|
      {
        ghost var before := State();
        NoOps(log);
        var rec := recs[0];
        var offer := Resolve(offers, rec.offerId, rec.offerOrigin);
        if offer.None? {
          return Err(InvalidPair);
        }
        var bid := Resolve(bids, rec.bidId, rec.bidOrigin);
        if bid.None? {
          return Err(InvalidPair);
        }
        ResolvedIsOpen(before, rec.offerId, rec.offerOrigin, rec.bidId, rec.bidOrigin);
        if offer.value.trader.uuid == bid.value.trader.uuid {
          recs := recs[1..];
          continue;
        }
        if !ValidMatch(offer.value, bid.value, rec) {
          if cfg.externalMatching {
            return Err(InvalidPair);
          }
          recs := recs[1..];
          continue;
        }
        var info := ClearingInfo(cfg, offer.value, bid.value, rec.tradeRate);
        if info.None? {
          return Err(FeeUndefined);
        }
        ValidAfterMatchOne(cfg, before, rec);
        var energy := Min(Min(rec.selectedEnergy, offer.value.energy), bid.value.energy);
        label Before:
        var pair := AcceptBidOfferPair(bid.value, offer.value, info.value, energy);
        if pair.Err? {
          return Err(pair.error);
        }
        InTurn(old@Before(log), PairOps(cfg, before, bid.value, offer.value, info.value, energy),
               MatchAllOps(cfg, State(), Rewrite(recs[1..], pair.value.0, pair.value.1)));
        wereTradesPerformed := true;
        recs := Rewrite(recs[1..], pair.value.0, pair.value.1);
      }
      NoOps(log);
      return Ok(wereTradesPerformed);
    }

    // The average trade price is computed on demand and cached until the next trade.
    method AvgTradePrice() returns (price: real)
      requires averagePrice.Some? ==> averagePrice.value == AverageTradePrice(State())
      modifies this`averagePrice
      ensures price == AverageTradePrice(old(State()))
      ensures averagePrice == Some(price)
    {
      if averagePrice.None? {
        averagePrice := Some(if accumulatedTradeEnergy != 0.0
                             then Round4(accumulatedTradePrice / accumulatedTradeEnergy) else 0.0);
      }
      return averagePrice.value;
    }
  }
}
