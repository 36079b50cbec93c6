/** Feasible batches of recommendations settle exactly. Throughout, `side` picks the offers or the
    bids, so that each argument is made once for both. */
module Settlement {
  import opened Numeric
  import opened Books
  import opened Fees
  import opened MarketState
  import opened Acceptance

  datatype Side = OfferSide | BidSide

  function BookOn(side: Side, m: Market): Book {
    if side.OfferSide? then m.offers else m.bids
  }

  function KeyOn(side: Side, rec: Recommendation): nat {
    if side.OfferSide? then rec.offerId else rec.bidId
  }

  function LegOn(side: Side, offerTrade: Trade, bidTrade: Trade): Trade {
    if side.OfferSide? then offerTrade else bidTrade
  }

  function OrderOn(side: Side, t: Trade): Option<Order> {
    if side.OfferSide? then t.offer else t.bid
  }

  function OriginalPriceOn(side: Side, o: Order): real {
    if side.OfferSide? then OriginalOfferPrice(o) else o.originalPrice
  }

  // The energy a list of recommendations takes from the order with the given id.
  function Selected(side: Side, recs: seq<Recommendation>, id: nat): real {
    if recs == [] then 0.0
    else (if KeyOn(side, recs[0]) == id then recs[0].selectedEnergy else 0.0) + Selected(side, recs[1..], id)
  }

  // ----- a residual is priced like the order it was cut from -----

  function SupplyTax(o: Order): real
    requires o.energy != 0.0
  {
    if o.OriginalRate() == 0.0 then 0.0 else o.Rate() / o.OriginalRate() - 1.0
  }

  ghost predicate PricedLike(side: Side, o: Order, r: Order)
    requires o.energy > 0.0
  {
    && r.energy > 0.0 && r.trader == o.trader && r.timeSlot == o.timeSlot && r.Rate() == o.Rate()
    && (side.OfferSide? ==> SupplyTax(r) == SupplyTax(o))
    && (side.BidSide? ==> OriginalBidRate(r) == OriginalBidRate(o) && (o.price >= 0.0 ==> r.price >= 0.0))
  }

  // The rates at which a pair would be settled, if the fee class has any.
  function PairRates(cfg: Config, offer: Order, bid: Order, clearingRate: real): Option<Priced>
    requires offer.energy != 0.0 && bid.energy != 0.0
  {
    match ClearingInfo(cfg, offer, bid, clearingRate)
    case None => None
    case Some(info) => TradePriceAndFees(cfg.fee, info)
  }

  lemma PairRatesOfResiduals(cfg: Config, o: Order, b: Order, o': Order, b': Order, clearingRate: real)
    requires o.energy > 0.0 && b.energy > 0.0
    requires PricedLike(OfferSide, o, o') && PricedLike(BidSide, b, b')
    ensures PairRates(cfg, o', b', clearingRate) == PairRates(cfg, o, b, clearingRate)
  {
  }

  lemma RestShare(part: real, whole: real)
    requires whole > 0.0
    ensures 1.0 - part / whole == (whole - part) / whole
  {
    var share := part / whole;
    assert (1.0 - share) * whole == whole - part;
    QuotientOf(1.0 - share, whole, whole - part);
  }

  lemma QuotientOf(x: real, divisor: real, product: real)
    requires divisor != 0.0 && x * divisor == product
    ensures x == product / divisor
  {
  }

  lemma ResidualRates(o: Order, energy: real, originalPrice: real, freshId: nat)
    requires 0.0 < energy < o.energy
    ensures var r := ResidualPiece(o, energy, originalPrice, freshId);
            r.energy > 0.0 && r.Rate() == o.Rate() && r.OriginalRate() == originalPrice / o.energy
    ensures var a := AcceptedPiece(o, energy, originalPrice);
            a.energy > 0.0 && a.Rate() == o.Rate() && a.OriginalRate() == originalPrice / o.energy
  {
    var rest := o.energy - energy;
    RestShare(energy, o.energy);
  }

  lemma ResidualIsPricedLike(side: Side, o: Order, energy: real, freshId: nat)
    requires 0.0 < energy < o.energy
    ensures PricedLike(side, o, ResidualPiece(o, energy, OriginalPriceOn(side, o), freshId))
  {
    var original := OriginalPriceOn(side, o);
    var r := ResidualPiece(o, energy, original, freshId);
    ResidualRates(o, energy, original, freshId);
    match side
    case OfferSide =>
      if o.originalPrice == 0.0 {
        assert o.OriginalRate() == 0.0;
        assert r.OriginalRate() == r.Rate();
      } else {
        assert r.OriginalRate() == o.OriginalRate();
      }
    case BidSide =>
      BidRateIsOriginal(o);
      BidRateIsOriginal(r);
      if o.price >= 0.0 {
        SplitIsPositive(o, energy, original, freshId);
      }
  }

  lemma BidRateIsOriginal(b: Order)
    requires b.energy > 0.0
    ensures OriginalBidRate(b) == b.OriginalRate()
  {
  }

  // ----- feasible batches -----

  ghost predicate FeasibleRec(cfg: Config, m: Market, rec: Recommendation)
    requires Valid(m)
  {
    && Find(m.offers, rec.offerId).Some? && Find(m.bids, rec.bidId).Some?
    && var o, b := Find(m.offers, rec.offerId).value, Find(m.bids, rec.bidId).value;
    && OpenOffer(o, m.nextId) && OpenBid(b, m.nextId)
    && o.trader.uuid != b.trader.uuid
    && rec.selectedEnergy > TOL && o.energy <= MAX_ENERGY && b.energy <= MAX_ENERGY && b.price >= 0.0
    && o.Rate() <= rec.tradeRate + TOL && rec.tradeRate <= b.Rate() + TOL
    && PairRates(cfg, o, b, rec.tradeRate).Some?
  }

  ghost predicate FeasibleOn(side: Side, b: Book, recs: seq<Recommendation>) {
    forall id :: Find(b, id).Some? ==> Selected(side, recs, id) <= Find(b, id).value.energy
  }

  // All orders are open, traders differ, rates and prices are in order, and no order is asked
  // for more energy than it has.
  ghost predicate Feasible(cfg: Config, m: Market, recs: seq<Recommendation>) {
    && Valid(m) && !m.readonly
    && (forall i :: 0 <= i < |recs| ==> FeasibleRec(cfg, m, recs[i]))
    && FeasibleOn(OfferSide, m.offers, recs) && FeasibleOn(BidSide, m.bids, recs)
  }

  lemma {:induction false} SelectedSum(side: Side, recs: seq<Recommendation>, id: nat)
    requires forall i :: 0 <= i < |recs| ==> recs[i].selectedEnergy > 0.0
    ensures Selected(side, recs, id) >= 0.0
    ensures forall i :: 0 <= i < |recs| && KeyOn(side, recs[i]) == id ==>
                          recs[i].selectedEnergy <= Selected(side, recs, id)
    ensures Selected(side, recs, id) > 0.0 <==> exists i :: 0 <= i < |recs| && KeyOn(side, recs[i]) == id
  {
    if recs != [] {
      var t := recs[1..];
      SelectedSum(side, t, id);
      forall i | 0 < i < |recs| ensures recs[i] == t[i - 1] {}
      if exists i :: 0 <= i < |t| && KeyOn(side, t[i]) == id {
        var i :| 0 <= i < |t| && KeyOn(side, t[i]) == id;
        assert KeyOn(side, recs[i + 1]) == id;
      }
    }
  }

  // What rewriting does to the energy asked of each order: the residual inherits what was asked
  // of the traded one.
  lemma {:induction false} SelectedAfterRewrite(side: Side, recs: seq<Recommendation>, offerTrade: Trade,
                                                bidTrade: Trade, old_: nat, id: nat)
    requires offerTrade.offer.Some? && bidTrade.bid.Some?
    requires OrderOn(side, LegOn(side, offerTrade, bidTrade)).value.id == old_
    requires var left := LegOn(side, offerTrade, bidTrade).residual;
             left.Some? ==> left.value.id != old_ &&
                            forall i :: 0 <= i < |recs| ==> KeyOn(side, recs[i]) != left.value.id
    ensures var left := LegOn(side, offerTrade, bidTrade).residual;
            Selected(side, Rewrite(recs, offerTrade, bidTrade), id) ==
            if left.None? then Selected(side, recs, id)
            else if id == old_ then 0.0
            else if id == left.value.id then Selected(side, recs, old_)
            else Selected(side, recs, id)
  {
    if recs != [] {
      SelectedAfterRewrite(side, recs[1..], offerTrade, bidTrade, old_, id);
      assert Rewrite(recs, offerTrade, bidTrade)[1..] == Rewrite(recs[1..], offerTrade, bidTrade);
    }
  }

  // ----- one step of a feasible batch -----

  // One side of a completed recommendation: the leg's residual, if any, is what is left of the
  // order and takes its place in the book.
  ghost predicate SideSettled(side: Side, m: Market, m1: Market, rec: Recommendation, leg: Trade)
    requires Find(BookOn(side, m), KeyOn(side, rec)).Some?
  {
    var id := KeyOn(side, rec);
    var o := Find(BookOn(side, m), id).value;
    && o.energy > 0.0
    && OrderOn(side, leg).Some? && OrderOn(side, leg).value.id == id
    && rec.selectedEnergy <= leg.tradedEnergy <= rec.selectedEnergy + TOL
    && (leg.tradedEnergy != rec.selectedEnergy ==> leg.tradedEnergy == o.energy)
    && BookOn(side, m1) == BookAfter(BookOn(side, m), id, leg.residual)
    && (leg.residual.Some? <==> o.energy - rec.selectedEnergy > TOL)
    && (leg.residual.Some? ==>
          && m.nextId <= leg.residual.value.id
          && leg.residual.value.energy == o.energy - rec.selectedEnergy
          && PricedLike(side, o, leg.residual.value))
  }

  lemma RemainderOfSelected(side: Side, o: Order, selected: real, freshId: nat)
    requires 0.0 < selected <= o.energy <= MAX_ENERGY
    ensures var left := Remainder(o, RequestedEnergy(Some(selected), o.energy), OriginalPriceOn(side, o), freshId);
            && (left.Some? <==> o.energy - selected > TOL)
            && (left.Some? ==> left.value.id == freshId && left.value.energy == o.energy - selected &&
                               PricedLike(side, o, left.value))
  {
    var e := RequestedEnergy(Some(selected), o.energy);
    SnapIsSmall(selected, o.energy);
    assert RequestedEnergy(Some(e), o.energy) == e;
    if o.energy - selected > TOL {
      assert e == selected;
      ResidualIsPricedLike(side, o, selected, freshId);
    }
  }

  // A feasible recommendation reaches the acceptance of its own two orders, which completes.
  lemma FeasibleRecTrades(cfg: Config, m: Market, rec: Recommendation) returns (m1: Market, info: TradeInfo)
    requires Valid(m) && !m.readonly && FeasibleRec(cfg, m, rec)
    requires rec.selectedEnergy <= Find(m.offers, rec.offerId).value.energy
    requires rec.selectedEnergy <= Find(m.bids, rec.bidId).value.energy
    ensures var o, b := Find(m.offers, rec.offerId).value, Find(m.bids, rec.bidId).value;
            var out := MatchOne(cfg, m, rec);
            && out.Traded? && Valid(m1) && Valid(out.market) && o.id == rec.offerId && b.id == rec.bidId
            && TradePriceAndFees(cfg.fee, info).Some?
            && AcceptOffer(cfg, m, o.id, b.trader, Some(rec.selectedEnergy), Some(info), Some(b)) ==
               (m1, Ok(out.offerTrade))
            && AcceptBid(cfg, m1, b, Some(rec.selectedEnergy), o.trader, info, Some(o)) ==
               (out.market, Ok(out.bidTrade))
  {
    var o, b := Find(m.offers, rec.offerId).value, Find(m.bids, rec.bidId).value;
    FindIn(m.offers, rec.offerId);
    FindIn(m.bids, rec.bidId);
    info := ClearingInfo(cfg, o, b, rec.tradeRate).value;
    ValidatedPairCompletes(cfg, m, b, o, info, rec.selectedEnergy);
    m1 := PairSteps(cfg, m, b, o, info, rec.selectedEnergy);
    ValidAfterMatchOne(cfg, m, rec);
  }

  lemma OfferSideSettled(cfg: Config, m: Market, m1: Market, rec: Recommendation, b: Order, info: TradeInfo, t: Trade)
    requires Valid(m) && Find(m.offers, rec.offerId).Some? && Find(m.offers, rec.offerId).value.id == rec.offerId
    requires 0.0 < rec.selectedEnergy <= Find(m.offers, rec.offerId).value.energy <= MAX_ENERGY
    requires AcceptOffer(cfg, m, rec.offerId, b.trader, Some(rec.selectedEnergy), Some(info), Some(b)) == (m1, Ok(t))
    ensures SideSettled(OfferSide, m, m1, rec, t)
    ensures m1.trades == m.trades + [t] && m1.bids == m.bids && m1.nextId >= m.nextId && m1.readonly == m.readonly
    ensures t.buyer == b.trader && t.seller == Find(m.offers, rec.offerId).value.trader
  {
    var o := Find(m.offers, rec.offerId).value;
    AcceptedOfferEffect(cfg, m, rec.offerId, b.trader, Some(rec.selectedEnergy), Some(info), Some(b));
    RemainderOfSelected(OfferSide, o, rec.selectedEnergy, m.nextId);
    SnapIsSmall(rec.selectedEnergy, o.energy);
  }

  lemma BidSideSettled(cfg: Config, m: Market, m1: Market, rec: Recommendation, o: Order, info: TradeInfo, t: Trade)
    requires Valid(m) && Find(m.bids, rec.bidId).Some? && Find(m.bids, rec.bidId).value.id == rec.bidId
    requires 0.0 < rec.selectedEnergy <= Find(m.bids, rec.bidId).value.energy <= MAX_ENERGY
    requires AcceptBid(cfg, m, Find(m.bids, rec.bidId).value, Some(rec.selectedEnergy), o.trader, info, Some(o)) ==
             (m1, Ok(t))
    ensures SideSettled(BidSide, m, m1, rec, t)
    ensures m1.trades == m.trades && m1.offers == m.offers && m1.readonly == m.readonly
    ensures t.seller == o.trader && t.buyer == Find(m.bids, rec.bidId).value.trader
  {
    var b := Find(m.bids, rec.bidId).value;
    AcceptedBidEffect(cfg, m, b, Some(rec.selectedEnergy), o.trader, info, Some(o));
    RemainderOfSelected(BidSide, b, rec.selectedEnergy, m.nextId);
    SnapIsSmall(rec.selectedEnergy, b.energy);
  }

  // The two sides of a step, seen from the market before it.
  ghost predicate StepSettled(cfg: Config, m: Market, rec: Recommendation)
    requires Valid(m) && Find(m.offers, rec.offerId).Some? && Find(m.bids, rec.bidId).Some?
  {
    var out := MatchOne(cfg, m, rec);
    && out.Traded? && Valid(out.market) && !out.market.readonly
    && SideSettled(OfferSide, m, out.market, rec, out.offerTrade)
    && SideSettled(BidSide, m, out.market, rec, out.bidTrade)
    && out.market.trades == m.trades + [out.offerTrade]
    && out.offerTrade.seller == out.bidTrade.seller == Find(m.offers, rec.offerId).value.trader
    && out.offerTrade.buyer == out.bidTrade.buyer == Find(m.bids, rec.bidId).value.trader
  }

  lemma FeasibleRecSettles(cfg: Config, m: Market, rec: Recommendation)
    requires Valid(m) && !m.readonly && FeasibleRec(cfg, m, rec)
    requires rec.selectedEnergy <= Find(m.offers, rec.offerId).value.energy
    requires rec.selectedEnergy <= Find(m.bids, rec.bidId).value.energy
    ensures StepSettled(cfg, m, rec)
  {
    var m1, info := FeasibleRecTrades(cfg, m, rec);
    var o, b := Find(m.offers, rec.offerId).value, Find(m.bids, rec.bidId).value;
    var out := MatchOne(cfg, m, rec);
    OfferSideSettled(cfg, m, m1, rec, b, info, out.offerTrade);
    BidSideSettled(cfg, m1, out.market, rec, o, info, out.bidTrade);
  }

  // ----- the batch -----

  // What one settled side leaves of the book, order by order.
  lemma BookAfterStep(side: Side, m: Market, m1: Market, rec: Recommendation, leg: Trade, id: nat)
    requires Distinct(BookOn(side, m)) && Find(BookOn(side, m), KeyOn(side, rec)).Some?
    requires SideSettled(side, m, m1, rec, leg)
    requires forall k: nat :: Find(BookOn(side, m), k).Some? ==> k < m.nextId
    ensures Find(BookOn(side, m1), id) ==
            if leg.residual.Some? && id == leg.residual.value.id then leg.residual
            else if id == KeyOn(side, rec) then None
            else Find(BookOn(side, m), id)
  {
    FindBookAfter(BookOn(side, m), KeyOn(side, rec), leg.residual);
  }

  lemma KeysAreOld(side: Side, m: Market)
    requires Valid(m)
    ensures Distinct(BookOn(side, m))
    ensures forall k: nat :: Find(BookOn(side, m), k).Some? ==> k < m.nextId
  {
    forall k: nat | Find(BookOn(side, m), k).Some? ensures k < m.nextId {
      FindIn(BookOn(side, m), k);
    }
  }

  lemma FeasibleHead(cfg: Config, m: Market, recs: seq<Recommendation>)
    requires Feasible(cfg, m, recs) && recs != []
    ensures FeasibleRec(cfg, m, recs[0]) && StepSettled(cfg, m, recs[0])
  {
    SelectedSum(OfferSide, recs, recs[0].offerId);
    SelectedSum(BidSide, recs, recs[0].bidId);
    FeasibleRecSettles(cfg, m, recs[0]);
  }

  // The rest of the list, rewritten, asks no order for more than it has left.
  lemma RestFitsOn(side: Side, m: Market, recs: seq<Recommendation>, m1: Market, offerTrade: Trade, bidTrade: Trade)
    requires Valid(m) && recs != []
    requires forall i :: 0 <= i < |recs| ==>
               recs[i].selectedEnergy > TOL && Find(BookOn(side, m), KeyOn(side, recs[i])).Some?
    requires FeasibleOn(side, BookOn(side, m), recs)
    requires SideSettled(side, m, m1, recs[0], LegOn(side, offerTrade, bidTrade))
    requires offerTrade.offer.Some? && bidTrade.bid.Some?
    ensures FeasibleOn(side, BookOn(side, m1), Rewrite(recs[1..], offerTrade, bidTrade))
    ensures forall i :: 0 < i < |recs| && KeyOn(side, recs[i]) == KeyOn(side, recs[0]) ==>
              LegOn(side, offerTrade, bidTrade).residual.Some?
  {
    var leg, k, rest := LegOn(side, offerTrade, bidTrade), KeyOn(side, recs[0]), recs[1..];
    var o := Find(BookOn(side, m), k).value;
    KeysAreOld(side, m);
    forall i | 0 < i < |recs| && KeyOn(side, recs[i]) == k ensures leg.residual.Some? {
      SelectedSum(side, rest, k);
      assert rest[i - 1] == recs[i];
    }
    forall id | Find(BookOn(side, m1), id).Some?
      ensures Selected(side, Rewrite(rest, offerTrade, bidTrade), id) <= Find(BookOn(side, m1), id).value.energy
    {
      BookAfterStep(side, m, m1, recs[0], leg, id);
      SelectedAfterRewrite(side, rest, offerTrade, bidTrade, k, id);
    }
  }

  // A later recommendation's order, after the step: the same one or the residual in its place.
  lemma LaterOrder(side: Side, m: Market, m1: Market, first: Recommendation, rec: Recommendation,
                   offerTrade: Trade, bidTrade: Trade)
    requires Valid(m) && offerTrade.offer.Some? && bidTrade.bid.Some?
    requires Find(BookOn(side, m), KeyOn(side, first)).Some? && Find(BookOn(side, m), KeyOn(side, rec)).Some?
    requires Find(BookOn(side, m), KeyOn(side, rec)).value.energy > 0.0 && first.selectedEnergy > 0.0
    requires SideSettled(side, m, m1, first, LegOn(side, offerTrade, bidTrade))
    requires KeyOn(side, rec) == KeyOn(side, first) ==> LegOn(side, offerTrade, bidTrade).residual.Some?
    ensures var o := Find(BookOn(side, m), KeyOn(side, rec)).value;
            var o' := Find(BookOn(side, m1), KeyOn(side, RewriteOne(rec, offerTrade, bidTrade)));
            o'.Some? && PricedLike(side, o, o'.value) && o'.value.energy <= o.energy
  {
    var leg := LegOn(side, offerTrade, bidTrade);
    KeysAreOld(side, m);
    BookAfterStep(side, m, m1, first, leg, KeyOn(side, RewriteOne(rec, offerTrade, bidTrade)));
  }

  lemma LaterRecIsFeasible(cfg: Config, m: Market, recs: seq<Recommendation>, i: nat)
    requires Feasible(cfg, m, recs) && 0 < i < |recs| && StepSettled(cfg, m, recs[0])
    requires var out := MatchOne(cfg, m, recs[0]);
             && (recs[i].offerId == recs[0].offerId ==> out.offerTrade.residual.Some?)
             && (recs[i].bidId == recs[0].bidId ==> out.bidTrade.residual.Some?)
    ensures var out := MatchOne(cfg, m, recs[0]);
            FeasibleRec(cfg, out.market, RewriteOne(recs[i], out.offerTrade, out.bidTrade))
  {
    hide MatchOne, PairRates, PricedLike;
    var out := MatchOne(cfg, m, recs[0]);
    var rec, rec' := recs[i], RewriteOne(recs[i], out.offerTrade, out.bidTrade);
    LaterOrder(OfferSide, m, out.market, recs[0], rec, out.offerTrade, out.bidTrade);
    LaterOrder(BidSide, m, out.market, recs[0], rec, out.offerTrade, out.bidTrade);
    var o, b := Find(m.offers, rec.offerId).value, Find(m.bids, rec.bidId).value;
    var o', b' := Find(out.market.offers, rec'.offerId).value, Find(out.market.bids, rec'.bidId).value;
    PairRatesOfResiduals(cfg, o, b, o', b', rec.tradeRate);
  }

  // Feasibility is kept by a step.
  lemma RestIsFeasible(cfg: Config, m: Market, recs: seq<Recommendation>)
    requires Feasible(cfg, m, recs) && recs != []
    ensures StepSettled(cfg, m, recs[0])
    ensures var out := MatchOne(cfg, m, recs[0]);
            Feasible(cfg, out.market, Rewrite(recs[1..], out.offerTrade, out.bidTrade))
  {
    hide MatchOne;
    FeasibleHead(cfg, m, recs);
    var out := MatchOne(cfg, m, recs[0]);
    RestFitsOn(OfferSide, m, recs, out.market, out.offerTrade, out.bidTrade);
    RestFitsOn(BidSide, m, recs, out.market, out.offerTrade, out.bidTrade);
    forall i | 0 <= i < |recs| - 1
      ensures FeasibleRec(cfg, out.market, Rewrite(recs[1..], out.offerTrade, out.bidTrade)[i])
    {
      LaterRecIsFeasible(cfg, m, recs, i + 1);
    }
  }

  // The pairs of trades a batch makes, in order.
  ghost function Legs(cfg: Config, m: Market, recs: seq<Recommendation>): seq<(Trade, Trade)>
    requires Valid(m)
    decreases |recs|
  {
    if recs == [] then []
    else match MatchOne(cfg, m, recs[0])
      case Raised(_, _) => []
      case Skipped => Legs(cfg, m, recs[1..])
      case Traded(m1, offerTrade, bidTrade) =>
        ValidAfterMatchOne(cfg, m, recs[0]);
        [(offerTrade, bidTrade)] + Legs(cfg, m1, Rewrite(recs[1..], offerTrade, bidTrade))
  }

  // Under which id the order now known as `id` is open once the batch is done, if it still is.
  ghost function Heir(side: Side, cfg: Config, m: Market, recs: seq<Recommendation>, id: nat): Option<nat>
    requires Valid(m)
    decreases |recs|
  {
    if recs == [] then Some(id)
    else match MatchOne(cfg, m, recs[0])
      case Raised(_, _) => Some(id)
      case Skipped => Heir(side, cfg, m, recs[1..], id)
      case Traded(m1, offerTrade, bidTrade) =>
        ValidAfterMatchOne(cfg, m, recs[0]);
        var leg, rest := LegOn(side, offerTrade, bidTrade), Rewrite(recs[1..], offerTrade, bidTrade);
        if OrderOn(side, leg).None? || OrderOn(side, leg).value.id != id then Heir(side, cfg, m1, rest, id)
        else if leg.residual.None? then None
        else Heir(side, cfg, m1, rest, leg.residual.value.id)
  }

  // The two legs of a recommendation are between the two orders' own traders, for the selected
  // energy up to the snap.
  ghost predicate LegsOf(m: Market, rec: Recommendation, legs: (Trade, Trade)) {
    && Find(m.offers, rec.offerId).Some? && Find(m.bids, rec.bidId).Some?
    && legs.0.seller == legs.1.seller == Find(m.offers, rec.offerId).value.trader
    && legs.0.buyer == legs.1.buyer == Find(m.bids, rec.bidId).value.trader
    && rec.selectedEnergy <= legs.0.tradedEnergy <= rec.selectedEnergy + TOL
    && rec.selectedEnergy <= legs.1.tradedEnergy <= rec.selectedEnergy + TOL
  }

  function OfferLegs(legs: seq<(Trade, Trade)>): seq<Trade> {
    if legs == [] then [] else [legs[0].0] + OfferLegs(legs[1..])
  }

  // A feasible batch raises nothing and every recommendation trades, once, between its traders;
  // the offer legs are booked in order.
  lemma {:induction false} FeasibleBatchTrades(cfg: Config, m: Market, recs: seq<Recommendation>, traded: bool)
    requires Feasible(cfg, m, recs)
    ensures var (m', r) := MatchAll(cfg, m, recs, traded);
            var legs := Legs(cfg, m, recs);
            && r == Ok(traded || recs != [])
            && |legs| == |recs|
            && (forall i :: 0 <= i < |recs| ==> LegsOf(m, recs[i], legs[i]))
            && m'.trades == m.trades + OfferLegs(legs)
    decreases |recs|
  {
    hide MatchOne, PricedLike, FeasibleOn, PairRates, OffersValid, BidsValid, BookAfter, RewriteOne;
    if recs != [] {
      RestIsFeasible(cfg, m, recs);
      var out := MatchOne(cfg, m, recs[0]);
      var rest := Rewrite(recs[1..], out.offerTrade, out.bidTrade);
      FeasibleBatchTrades(cfg, out.market, rest, true);
      var legs, later := Legs(cfg, m, recs), Legs(cfg, out.market, rest);
      assert legs == [(out.offerTrade, out.bidTrade)] + later;
      assert legs[1..] == later;
      assert m.trades + [out.offerTrade] + OfferLegs(later) == m.trades + OfferLegs(legs);
      forall i | 0 <= i < |recs| ensures LegsOf(m, recs[i], legs[i]) {
        if i > 0 {
          assert legs[i] == later[i - 1];
          LegsOfResidual(cfg, m, recs, i, later[i - 1]);
        }
      }
    }
  }

  lemma LegsOfResidual(cfg: Config, m: Market, recs: seq<Recommendation>, i: nat, legs: (Trade, Trade))
    requires Feasible(cfg, m, recs) && 0 < i < |recs| && StepSettled(cfg, m, recs[0])
    requires var out := MatchOne(cfg, m, recs[0]);
             LegsOf(out.market, RewriteOne(recs[i], out.offerTrade, out.bidTrade), legs)
    ensures LegsOf(m, recs[i], legs)
  {
    hide MatchOne, PricedLike;
    var out := MatchOne(cfg, m, recs[0]);
    var rec := recs[i];
    RestFitsOn(OfferSide, m, recs, out.market, out.offerTrade, out.bidTrade);
    RestFitsOn(BidSide, m, recs, out.market, out.offerTrade, out.bidTrade);
    LaterOrder(OfferSide, m, out.market, recs[0], rec, out.offerTrade, out.bidTrade);
    LaterOrder(BidSide, m, out.market, recs[0], rec, out.offerTrade, out.bidTrade);
    var rec' := RewriteOne(rec, out.offerTrade, out.bidTrade);
  }

  // What a feasible batch leaves of one order: nothing was asked and it is untouched; or less
  // than all but TOL was asked and the rest is open, priced as before; or it is gone.
  ghost predicate OrderSettled(side: Side, o: Order, asked: real, heir: Option<nat>, after: Book)
    requires o.energy > 0.0
  {
    if asked == 0.0 then heir == Some(o.id) && Find(after, o.id) == Some(o)
    else if o.energy - asked > TOL then
      && heir.Some? && Find(after, heir.value).Some?
      && Find(after, heir.value).value.energy == o.energy - asked
      && PricedLike(side, o, Find(after, heir.value).value)
    else heir.None?
  }

  lemma StepOnOrder(side: Side, cfg: Config, m: Market, recs: seq<Recommendation>, id: nat)
    requires Feasible(cfg, m, recs) && recs != [] && StepSettled(cfg, m, recs[0])
    requires Find(BookOn(side, m), id).Some?
    ensures var out := MatchOne(cfg, m, recs[0]);
            var leg := LegOn(side, out.offerTrade, out.bidTrade);
            var rest := Rewrite(recs[1..], out.offerTrade, out.bidTrade);
            && out.offerTrade.offer.Some? && out.bidTrade.bid.Some?
            && OrderOn(side, leg).Some? && OrderOn(side, leg).value.id == KeyOn(side, recs[0])
            && (id != KeyOn(side, recs[0]) ==>
                  && Find(BookOn(side, out.market), id) == Find(BookOn(side, m), id)
                  && Selected(side, rest, id) == Selected(side, recs, id))
            && (id == KeyOn(side, recs[0]) && leg.residual.Some? ==>
                  && Find(BookOn(side, out.market), leg.residual.value.id) == leg.residual
                  && Selected(side, rest, leg.residual.value.id) == Selected(side, recs, id) - recs[0].selectedEnergy)
            && (id == KeyOn(side, recs[0]) && leg.residual.None? ==> Selected(side, recs, id) == recs[0].selectedEnergy)
  {
    hide MatchOne, PricedLike, Pop, PairRates, OffersValid, BidsValid;
    var out := MatchOne(cfg, m, recs[0]);
    var leg, tail := LegOn(side, out.offerTrade, out.bidTrade), recs[1..];
    KeysAreOld(side, m);
    RestFitsOn(side, m, recs, out.market, out.offerTrade, out.bidTrade);
    SelectedAfterRewrite(side, tail, out.offerTrade, out.bidTrade, KeyOn(side, recs[0]), id);
    BookAfterStep(side, m, out.market, recs[0], leg, id);
    if leg.residual.Some? {
      var h := leg.residual.value.id;
      SelectedAfterRewrite(side, tail, out.offerTrade, out.bidTrade, KeyOn(side, recs[0]), h);
      BookAfterStep(side, m, out.market, recs[0], leg, h);
    } else {
      SelectedSum(side, tail, id);
      forall i | 0 <= i < |tail| ensures KeyOn(side, tail[i]) != KeyOn(side, recs[0]) {
        assert tail[i] == recs[i + 1];
      }
    }
  }

  lemma {:induction false} FeasibleBatchSettlesOrder(side: Side, cfg: Config, m: Market, recs: seq<Recommendation>,
                                                     traded: bool, id: nat)
    requires Feasible(cfg, m, recs)
    requires Find(BookOn(side, m), id).Some?
    ensures var o := Find(BookOn(side, m), id).value;
            && o.energy > 0.0 && o.id == id
            && OrderSettled(side, o, Selected(side, recs, id), Heir(side, cfg, m, recs, id),
                            BookOn(side, MatchAll(cfg, m, recs, traded).0))
    decreases |recs|
  {
    hide MatchOne, PricedLike, FeasibleOn;
    FindIn(BookOn(side, m), id);
    if recs != [] {
      RestIsFeasible(cfg, m, recs);
      StepOnOrder(side, cfg, m, recs, id);
      var out := MatchOne(cfg, m, recs[0]);
      var leg, rest := LegOn(side, out.offerTrade, out.bidTrade), Rewrite(recs[1..], out.offerTrade, out.bidTrade);
      var o := Find(BookOn(side, m), id).value;
      assert SideSettled(side, m, out.market, recs[0], leg);
      SelectedSum(side, recs, id);
      if id != KeyOn(side, recs[0]) {
        FeasibleBatchSettlesOrder(side, cfg, out.market, rest, true, id);
      } else if leg.residual.Some? {
        var r := leg.residual.value;
        FeasibleBatchSettlesOrder(side, cfg, out.market, rest, true, r.id);
        if o.energy - Selected(side, recs, id) > TOL && Selected(side, rest, r.id) != 0.0 {
          var heir := Heir(side, cfg, m, recs, id).value;
          PricedLikeChain(side, o, r, Find(BookOn(side, MatchAll(cfg, m, recs, traded).0), heir).value);
        }
      }
    }
  }

  lemma PricedLikeChain(side: Side, o: Order, r: Order, s: Order)
    requires o.energy > 0.0 && PricedLike(side, o, r) && PricedLike(side, r, s)
    ensures PricedLike(side, o, s)
  {
  }

  // Nothing else is open afterwards: every open order is the heir of exactly one earlier order.
  lemma {:induction false} EveryOpenOrderIsAnHeir(side: Side, cfg: Config, m: Market, recs: seq<Recommendation>,
                                                  traded: bool, h: nat) returns (id: nat)
    requires Feasible(cfg, m, recs)
    requires Find(BookOn(side, MatchAll(cfg, m, recs, traded).0), h).Some?
    ensures Find(BookOn(side, m), id).Some? && Heir(side, cfg, m, recs, id) == Some(h)
    decreases |recs|
  {
    hide MatchOne, PricedLike, FeasibleOn;
    if recs == [] {
      id := h;
    } else {
      RestIsFeasible(cfg, m, recs);
      var out := MatchOne(cfg, m, recs[0]);
      var leg, rest := LegOn(side, out.offerTrade, out.bidTrade), Rewrite(recs[1..], out.offerTrade, out.bidTrade);
      id := EveryOpenOrderIsAnHeir(side, cfg, out.market, rest, true, h);
      KeysAreOld(side, m);
      BookAfterStep(side, m, out.market, recs[0], leg, id);
      if leg.residual.Some? && id == leg.residual.value.id {
        id := KeyOn(side, recs[0]);
      }
      StepOnOrder(side, cfg, m, recs, id);
    }
  }

  lemma {:induction false} HeirsDiffer(side: Side, cfg: Config, m: Market, recs: seq<Recommendation>, id: nat,
                                       other: nat)
    requires Feasible(cfg, m, recs) && id != other
    requires Find(BookOn(side, m), id).Some? && Find(BookOn(side, m), other).Some?
    ensures Heir(side, cfg, m, recs, id).None? || Heir(side, cfg, m, recs, id) != Heir(side, cfg, m, recs, other)
    decreases |recs|
  {
    hide MatchOne, PricedLike, FeasibleOn;
    if recs != [] {
      RestIsFeasible(cfg, m, recs);
      StepOnOrder(side, cfg, m, recs, id);
      StepOnOrder(side, cfg, m, recs, other);
      var out := MatchOne(cfg, m, recs[0]);
      var leg, rest := LegOn(side, out.offerTrade, out.bidTrade), Rewrite(recs[1..], out.offerTrade, out.bidTrade);
      KeysAreOld(side, m);
      if id == KeyOn(side, recs[0]) && leg.residual.Some? {
        HeirsDiffer(side, cfg, out.market, rest, leg.residual.value.id, other);
      } else if other == KeyOn(side, recs[0]) && leg.residual.Some? {
        HeirsDiffer(side, cfg, out.market, rest, id, leg.residual.value.id);
      } else if id != KeyOn(side, recs[0]) && other != KeyOn(side, recs[0]) {
        HeirsDiffer(side, cfg, out.market, rest, id, other);
      }
    }
  }
}
