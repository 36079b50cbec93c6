/** Trading in a future market: the dictionary operations every market action performs on the
    open offers and bids, replayed on dictionaries that keep slot lists. */
module FutureTrading {
  import opened Numeric
  import opened Books
  import opened Fees
  import opened MarketState
  import opened Acceptance
  import opened DictOps
  import opened MatchingEngine
  import opened Runs
  import opened Mishaps
  import opened FutureOrders
  import OfferCoherence

  // ----- the operations of each action -----

  function LoopOps(cfg: Config, m: Market, matcher: Matcher): Ops
    requires Valid(m)
    decreases Units(m)
  {
    var pairs := matcher(m.offers, m.bids);
    if pairs == [] then NOTHING
    else
      var (m1, r) := MatchAll(cfg, m, pairs, false);
      ValidAfterMatchAll(cfg, m, pairs, false);
      if r == Ok(true) then
        RoundDropsUnits(cfg, m, pairs);
        Then(MatchAllOps(cfg, m, pairs), LoopOps(cfg, m1, matcher))
      else MatchAllOps(cfg, m, pairs)
  }

  function StepOps(cfg: Config, matcher: Matcher, m: Market, a: Action): Ops
    requires Valid(m)
  {
    match a
    case PostsOffer(price, energy, trader, original, slot) =>
      var r := PostOffer(cfg, m, price, energy, trader, None, original, true, true, slot).1;
      Ops(if r.Ok? then [Assign(r.value)] else [], [])
    case PostsBid(price, energy, trader, original, slot) =>
      var r := PostBid(cfg, m, price, energy, trader, None, original, true, true, slot).1;
      Ops([], if r.Ok? then [Assign(r.value)] else [])
    case DeletesOffer(id) => Ops(if m.readonly then [] else [Take(id)], [])
    case DeletesBid(id) => Ops([], [Take(id)])
    case AcceptsOffer(id, _, energy, info) => Ops(AcceptOfferOps(cfg, m, id, energy, info), [])
    case AcceptsBid(bid, energy, _, _) => Ops([], AcceptBidOps(cfg, m, bid, energy))
    case Matches(recs) => MatchAllOps(cfg, m, recs)
    case Ticks => if m.noNewOrder then NOTHING else LoopOps(cfg, m, matcher)
    case AsksAverage => NOTHING
  }

  // ----- replaying -----

  function Played(b: Book, ops: seq<DictOp>): Book
    decreases |ops|
  {
    if ops == [] then b
    else match ops[0]
      case Assign(o) => Played(Put(b, o), ops[1..])
      case Take(id) => Played(Pop(b, id), ops[1..])
  }

  // No operation raises on the way.
  predicate Plays(x: Indexed, ops: seq<DictOp>)
    decreases |ops|
  {
    ops == [] ||
    match ops[0]
    case Assign(o) => Plays(WithItem(x, o), ops[1..])
    case Take(id) => Removable(x, id) && Plays(Taken(x, id), ops[1..])
  }

  function PlayedIndexed(x: Indexed, ops: seq<DictOp>): Indexed
    requires Plays(x, ops)
    decreases |ops|
  {
    if ops == [] then x
    else match ops[0]
      case Assign(o) => PlayedIndexed(WithItem(x, o), ops[1..])
      case Take(id) => PlayedIndexed(Taken(x, id), ops[1..])
  }

  // No operation assigns an id that is in use, nor a slot that is not open.
  predicate Clean(b: Book, slots: set<int>, ops: seq<DictOp>)
    decreases |ops|
  {
    ops == [] ||
    match ops[0]
    case Assign(o) => Find(b, o.id).None? && o.timeSlot in slots && Clean(Put(b, o), slots, ops[1..])
    case Take(id) => Clean(Pop(b, id), slots, ops[1..])
  }

  lemma {:induction false} CleanOpsKeepCoherence(x: Indexed, ops: seq<DictOp>)
    requires Coherent(x) && Clean(x.data, x.slots.Keys, ops)
    ensures Plays(x, ops)
    ensures var y := PlayedIndexed(x, ops);
            Coherent(y) && y.data == Played(x.data, ops) && y.slots.Keys == x.slots.Keys
    decreases |ops|
  {
    hide Coherent;
    if ops != [] {
      match ops[0]
      case Assign(o) =>
        AssigningKeepsCoherenceIff(x, o);
        CleanOpsKeepCoherence(WithItem(x, o), ops[1..]);
      case Take(id) =>
        TakingKeepsCoherence(x, id);
        CleanOpsKeepCoherence(Taken(x, id), ops[1..]);
    }
  }

  lemma {:induction false} BothPlayed(b: Book, slots: set<int>, first: seq<DictOp>, second: seq<DictOp>)
    requires Clean(b, slots, first) && Clean(Played(b, first), slots, second)
    ensures Clean(b, slots, first + second)
    ensures Played(b, first + second) == Played(Played(b, first), second)
    decreases |first|
  {
    if first == [] {
      assert first + second == second;
    } else {
      assert (first + second)[1..] == first[1..] + second;
      var b1 := match first[0] case Assign(o) => Put(b, o) case Take(id) => Pop(b, id);
      BothPlayed(b1, slots, first[1..], second);
    }
  }

  // The operations lead from the dictionaries before to those after, and no order or trade of
  // theirs is outside the open slots.
  ghost predicate SlotsKnown(m: Market, slots: set<int>) {
    && (forall o :: o in m.offers ==> o.timeSlot in slots)
    && (forall b :: b in m.bids ==> b.timeSlot in slots)
    && (forall t :: t in m.trades ==> t.timeSlot in slots)
  }

  ghost predicate Mirrors(m: Market, slots: set<int>, ops: Ops, m': Market) {
    && Clean(m.offers, slots, ops.onOffers) && Played(m.offers, ops.onOffers) == m'.offers
    && Clean(m.bids, slots, ops.onBids) && Played(m.bids, ops.onBids) == m'.bids
    && SlotsKnown(m', slots)
  }

  lemma MirrorsBoth(m: Market, slots: set<int>, first: Ops, m1: Market, second: Ops, m2: Market)
    requires Mirrors(m, slots, first, m1) && Mirrors(m1, slots, second, m2)
    ensures Mirrors(m, slots, Then(first, second), m2)
  {
    BothPlayed(m.offers, slots, first.onOffers, second.onOffers);
    BothPlayed(m.bids, slots, first.onBids, second.onBids);
  }

  // ----- the operations of an action lead to the books the action leaves -----

  lemma ShortPlays(b: Book, slots: set<int>, id: nat)
    requires Distinct(b)
    ensures Clean(b, slots, [Take(id)]) && Played(b, [Take(id)]) == Pop(b, id)
    ensures Clean(b, slots, [Take(id), Take(id)]) && Played(b, [Take(id), Take(id)]) == Pop(b, id)
  {
    FoundAndGone(b, id);
    assert [Take(id), Take(id)][1..] == [Take(id)] && [Take(id)][1..] == [];
  }

  lemma AssigningPlays(b: Book, slots: set<int>, o: Order)
    requires Find(b, o.id).None? && o.timeSlot in slots
    ensures Clean(b, slots, [Assign(o)]) && Played(b, [Assign(o)]) == b + [o]
  {
    PutFresh(b, o);
    assert [Assign(o)][1..] == [];
  }

  lemma RestoringPlays(b: Book, slots: set<int>, o: Order)
    requires Distinct(b) && o.timeSlot in slots
    ensures var once, twice := [Take(o.id), Assign(o)], [Take(o.id), Take(o.id), Assign(o)];
            && Clean(b, slots, once) && Played(b, once) == Pop(b, o.id) + [o]
            && Clean(b, slots, twice) && Played(b, twice) == Pop(b, o.id) + [o]
  {
    FoundAndGone(b, o.id);
    ShortPlays(b, slots, o.id);
    AssigningPlays(Pop(b, o.id), slots, o);
    BothPlayed(b, slots, [Take(o.id)], [Assign(o)]);
    BothPlayed(b, slots, [Take(o.id), Take(o.id)], [Assign(o)]);
    assert [Take(o.id)] + [Assign(o)] == [Take(o.id), Assign(o)];
    assert [Take(o.id), Take(o.id)] + [Assign(o)] == [Take(o.id), Take(o.id), Assign(o)];
  }

  lemma SplittingPlays(b: Book, slots: set<int>, accepted: Order, residual: Order)
    requires Distinct(b) && Find(b, residual.id).None? && accepted.id != residual.id
    requires accepted.timeSlot in slots && residual.timeSlot in slots
    ensures var ops := [Take(accepted.id), Take(accepted.id), Assign(accepted), Assign(residual), Take(accepted.id)];
            Clean(b, slots, ops) && Played(b, ops) == Pop(b, accepted.id) + [residual]
  {
    var rest := Pop(b, accepted.id);
    var cut := [Take(accepted.id), Take(accepted.id), Assign(accepted), Assign(residual)];
    CuttingPlays(b, slots, accepted, residual);
    TwoPiecesDistinct(rest, accepted, residual, b);
    ShortPlays(rest + [accepted, residual], slots, accepted.id);
    PopAcceptedPiece(rest, accepted, residual);
    BothPlayed(b, slots, cut, [Take(accepted.id)]);
    assert cut + [Take(accepted.id)] ==
           [Take(accepted.id), Take(accepted.id), Assign(accepted), Assign(residual), Take(accepted.id)];
  }

  lemma TwoPiecesDistinct(rest: Book, accepted: Order, residual: Order, b: Book)
    requires Distinct(b) && rest == Pop(b, accepted.id) && Find(b, residual.id).None? && accepted.id != residual.id
    ensures Distinct(rest + [accepted, residual])
  {
    AfterPop(b, accepted.id);
    AfterAppend(rest, accepted);
    AfterAppend(rest + [accepted], residual);
    assert rest + [accepted] + [residual] == rest + [accepted, residual];
  }

  lemma OffersAreDistinct(m: Market)
    requires Valid(m)
    ensures Distinct(m.offers) && Distinct(m.bids)
    ensures Find(m.offers, m.nextId).None? && Find(m.bids, m.nextId).None?
  {
    FreshOffer(m.offers, m.nextId);
    FreshBid(m.bids, m.nextId);
  }

  // What an acceptance that strands nothing does to the books and trades: a failing one puts the
  // offer back, at the end, ...
  lemma FailedAcceptOfferOps(cfg: Config, m: Market, id: nat, buyer: Trader, energy: Option<real>,
                             info: Option<TradeInfo>, bid: Option<Order>)
    requires Valid(m) && !Strands(cfg, m, id, energy, info)
    requires AcceptOffer(cfg, m, id, buyer, energy, info, bid).1.Err?
    ensures var m' := AcceptOffer(cfg, m, id, buyer, energy, info, bid).0;
            var ops := AcceptOfferOps(cfg, m, id, energy, info);
            && m'.bids == m.bids && m'.trades == m.trades
            && (m.readonly ==> ops == [] && m'.offers == m.offers)
            && (!m.readonly && Find(m.offers, id).None? ==> ops == [Take(id)] && m'.offers == m.offers)
            && (!m.readonly && Find(m.offers, id).Some? ==>
                  var o := Find(m.offers, id).value;
                  && (ops == [Take(id), Assign(o)] || ops == [Take(id), Take(id), Assign(o)])
                  && m'.offers == Pop(m.offers, id) + [o])
  {
    hide Pop, AcceptedPiece, ResidualPiece, RequestedEnergy, TradePriceAndFees, AddOrCreate;
    if Find(m.offers, id).Some? {
      var o := Find(m.offers, id).value;
      assert [Take(id)] + [Assign(o)] == [Take(id), Assign(o)];
    }
  }

  // ... and a successful one takes it out, leaving the residual if it was cut.
  lemma OkAcceptOfferOps(cfg: Config, m: Market, id: nat, buyer: Trader, energy: Option<real>,
                         info: Option<TradeInfo>, bid: Option<Order>)
    requires Valid(m) && AcceptOffer(cfg, m, id, buyer, energy, info, bid).1.Ok?
    ensures !m.readonly && Find(m.offers, id).Some?
    ensures var (m', r) := AcceptOffer(cfg, m, id, buyer, energy, info, bid);
            var ops := AcceptOfferOps(cfg, m, id, energy, info);
            var o := Find(m.offers, id).value;
            && m'.bids == m.bids && m'.trades == m.trades + [r.value] && r.value.timeSlot == o.timeSlot
            && o.energy != 0.0
            && var accepted := AcceptedPiece(o, RequestedEnergy(energy, o.energy), OriginalOfferPrice(o));
               var residual := ResidualPiece(o, RequestedEnergy(energy, o.energy), OriginalOfferPrice(o), m.nextId);
               || (ops == [Take(id), Take(id)] && m'.offers == Pop(m.offers, id))
               || (ops == [Take(id), Take(id), Assign(accepted), Assign(residual), Take(id)] &&
                   m'.offers == Pop(m.offers, id) + [residual])
  {
    hide Pop, AcceptedPiece, ResidualPiece, RequestedEnergy, TradePriceAndFees, AddOrCreate;
    PiecesKeepSlots(m);
    assert [Take(id)] + [Take(id)] == [Take(id), Take(id)];
  }

  lemma AcceptOfferBooks(cfg: Config, m: Market, id: nat, buyer: Trader, energy: Option<real>,
                         info: Option<TradeInfo>, bid: Option<Order>)
    requires Valid(m) && !Strands(cfg, m, id, energy, info)
    ensures var (m', r) := AcceptOffer(cfg, m, id, buyer, energy, info, bid);
            var ops := AcceptOfferOps(cfg, m, id, energy, info);
            && m'.bids == m.bids
            && (m.readonly ==> ops == [] && m'.offers == m.offers && m'.trades == m.trades)
            && (!m.readonly && Find(m.offers, id).None? ==>
                  ops == [Take(id)] && m'.offers == m.offers && m'.trades == m.trades)
            && (!m.readonly && Find(m.offers, id).Some? ==>
                  var o := Find(m.offers, id).value;
                  o.energy != 0.0 &&
                  var accepted := AcceptedPiece(o, RequestedEnergy(energy, o.energy), OriginalOfferPrice(o));
                  var residual := ResidualPiece(o, RequestedEnergy(energy, o.energy), OriginalOfferPrice(o), m.nextId);
                  || (r.Err? && (ops == [Take(id), Assign(o)] || ops == [Take(id), Take(id), Assign(o)]) &&
                      m'.offers == Pop(m.offers, id) + [o] && m'.trades == m.trades)
                  || (r.Ok? && m'.trades == m.trades + [r.value] && r.value.timeSlot == o.timeSlot &&
                      ((ops == [Take(id), Take(id)] && m'.offers == Pop(m.offers, id)) ||
                       (ops == [Take(id), Take(id), Assign(accepted), Assign(residual), Take(id)] &&
                        m'.offers == Pop(m.offers, id) + [residual]))))
  {
    hide AcceptOffer, AcceptOfferOps, Valid, Strands, AcceptedPiece, ResidualPiece, RequestedEnergy;
    OpenHasEnergy(m, id);
    if AcceptOffer(cfg, m, id, buyer, energy, info, bid).1.Ok? {
      OkAcceptOfferOps(cfg, m, id, buyer, energy, info, bid);
    } else {
      FailedAcceptOfferOps(cfg, m, id, buyer, energy, info, bid);
    }
  }

  lemma PiecesKeepSlots(m: Market)
    ensures forall o: Order, e: real, p: real :: o.energy != 0.0 ==>
              AcceptedPiece(o, e, p).timeSlot == o.timeSlot && AcceptedPiece(o, e, p).id == o.id
    ensures forall o: Order, e: real, p: real, k: nat :: o.energy != 0.0 ==>
              ResidualPiece(o, e, p, k).timeSlot == o.timeSlot && ResidualPiece(o, e, p, k).id == k
  {
  }

  lemma AcceptOfferPlays(cfg: Config, m: Market, slots: set<int>, id: nat, buyer: Trader, energy: Option<real>,
                         info: Option<TradeInfo>, bid: Option<Order>)
    requires Valid(m) && (forall o :: o in m.offers ==> o.timeSlot in slots) && !Strands(cfg, m, id, energy, info)
    ensures var ops := AcceptOfferOps(cfg, m, id, energy, info);
            var m' := AcceptOffer(cfg, m, id, buyer, energy, info, bid).0;
            && Clean(m.offers, slots, ops) && Played(m.offers, ops) == m'.offers
            && (forall o :: o in m'.offers ==> o.timeSlot in slots)
  {
    hide AcceptOffer, AcceptOfferOps, Valid, AcceptedPiece, ResidualPiece, RequestedEnergy, Strands;
    AcceptOfferBooks(cfg, m, id, buyer, energy, info, bid);
    OffersAreDistinct(m);
    ShortPlays(m.offers, slots, id);
    AfterPop(m.offers, id);
    FindIn(m.offers, id);
    if Find(m.offers, id).None? {
      PopAbsent(m.offers, id);
    } else {
      var o := Find(m.offers, id).value;
      OpenHasEnergy(m, id);
      var e := RequestedEnergy(energy, o.energy);
      PiecesKeepSlots(m);
      RestoringPlays(m.offers, slots, o);
      SplittingPlays(m.offers, slots, AcceptedPiece(o, e, OriginalOfferPrice(o)),
                     ResidualPiece(o, e, OriginalOfferPrice(o), m.nextId));
    }
  }

  lemma AcceptOfferMirrors(cfg: Config, m: Market, slots: set<int>, id: nat, buyer: Trader, energy: Option<real>,
                           info: Option<TradeInfo>, bid: Option<Order>)
    requires Valid(m) && SlotsKnown(m, slots) && !Strands(cfg, m, id, energy, info)
    ensures Mirrors(m, slots, Ops(AcceptOfferOps(cfg, m, id, energy, info), []),
                    AcceptOffer(cfg, m, id, buyer, energy, info, bid).0)
  {
    hide AcceptOffer, AcceptOfferOps, Valid, AcceptedPiece, ResidualPiece, RequestedEnergy, Strands;
    AcceptOfferBooks(cfg, m, id, buyer, energy, info, bid);
    AcceptOfferPlays(cfg, m, slots, id, buyer, energy, info, bid);
    FindIn(m.offers, id);
    OpenHasEnergy(m, id);
  }

  lemma OpenHasEnergy(m: Market, id: nat)
    requires Valid(m)
    ensures Find(m.offers, id).Some? ==> Find(m.offers, id).value.energy > 0.0 && id < m.nextId
    ensures Find(m.bids, id).Some? ==> Find(m.bids, id).value.energy > 0.0 && id < m.nextId
  {
    FindIn(m.offers, id);
    FindIn(m.bids, id);
  }

  // The bid handed over is for the slot of the market's own bid.
  ghost predicate SameSlot(m: Market, bid: Order) {
    Find(m.bids, bid.id).Some? ==> Find(m.bids, bid.id).value.timeSlot == bid.timeSlot
  }

  lemma AcceptBidPlays(cfg: Config, m: Market, bid: Order, energy: Option<real>, seller: Trader, info: TradeInfo,
                       offer: Option<Order>)
    requires Valid(m) && SameSlot(m, bid)
    ensures var m' := AcceptBid(cfg, m, bid, energy, seller, info, offer).0;
            var ops := AcceptBidOps(cfg, m, bid, energy);
            && m'.offers == m.offers
            && (m'.trades == m.trades ||
                (|m'.trades| == |m.trades| + 1 && m'.trades == m.trades + [m'.trades[|m.trades|]] &&
                 Find(m.bids, bid.id).Some? && m'.trades[|m.trades|].timeSlot == bid.timeSlot))
            && (Find(m.bids, bid.id).None? ==> ops == [Take(bid.id)] && m'.bids == m.bids)
            && (Find(m.bids, bid.id).Some? ==>
                  var b := Find(m.bids, bid.id).value;
                  var accepted := AcceptedPiece(b, RequestedEnergy(energy, b.energy), bid.originalPrice);
                  var residual := ResidualPiece(b, RequestedEnergy(energy, b.energy), bid.originalPrice, m.nextId);
                  || (ops in [[Take(bid.id)], [Take(bid.id), Take(bid.id)]] && m'.bids == Pop(m.bids, bid.id))
                  || (ops == [Take(bid.id), Take(bid.id), Assign(accepted), Assign(residual), Take(bid.id)] &&
                      m'.bids == Pop(m.bids, bid.id) + [residual]))
  {
    hide Pop, AcceptedPiece, ResidualPiece, RequestedEnergy, TradePriceAndFees, AddOrCreate;
    PiecesKeepSlots(m);
    FindIn(m.bids, bid.id);
  }

  lemma AcceptBidMirrors(cfg: Config, m: Market, slots: set<int>, bid: Order, energy: Option<real>, seller: Trader,
                         info: TradeInfo, offer: Option<Order>)
    requires Valid(m) && SlotsKnown(m, slots) && SameSlot(m, bid)
    ensures Mirrors(m, slots, Ops([], AcceptBidOps(cfg, m, bid, energy)),
                    AcceptBid(cfg, m, bid, energy, seller, info, offer).0)
  {
    hide AcceptBid, AcceptBidOps, Valid, AcceptedPiece, ResidualPiece, RequestedEnergy;
    AcceptBidPlays(cfg, m, bid, energy, seller, info, offer);
    OffersAreDistinct(m);
    ShortPlays(m.bids, slots, bid.id);
    AfterPop(m.bids, bid.id);
    FindIn(m.bids, bid.id);
    if Find(m.bids, bid.id).None? {
      PopAbsent(m.bids, bid.id);
    } else {
      var b := Find(m.bids, bid.id).value;
      OpenHasEnergy(m, bid.id);
      var e := RequestedEnergy(energy, b.energy);
      PiecesKeepSlots(m);
      SplittingPlays(m.bids, slots, AcceptedPiece(b, e, bid.originalPrice),
                     ResidualPiece(b, e, bid.originalPrice, m.nextId));
    }
  }

  lemma NothingMirrors(m: Market, slots: set<int>, m': Market)
    requires SlotsKnown(m, slots) && m'.offers == m.offers && m'.bids == m.bids && m'.trades == m.trades
    ensures Mirrors(m, slots, NOTHING, m')
  {
  }

  lemma MatchOneMirrors(cfg: Config, m: Market, slots: set<int>, rec: Recommendation)
    requires Valid(m) && SlotsKnown(m, slots)
    requires !MatchOne(cfg, m, rec).Skipped? && !MatchOneMishap(cfg, m, rec).StrandedResidual?
    ensures Mirrors(m, slots, MatchOneOps(cfg, m, rec), MatchOne(cfg, m, rec).market)
  {
    ResolvedIsOpen(m, rec.offerId, rec.offerOrigin, rec.bidId, rec.bidOrigin);
    var offer := Resolve(m.offers, rec.offerId, rec.offerOrigin);
    var bid := Resolve(m.bids, rec.bidId, rec.bidOrigin);
    hide AcceptOffer, AcceptBid, AcceptOfferOps, AcceptBidOps, Mirrors, SlotsKnown, StrandsResidual,
         OfferLegGoesThrough, BidLegGoesThrough;
    NothingMirrors(m, slots, m);
    if offer.Some? && bid.Some? && offer.value.trader.uuid != bid.value.trader.uuid &&
       ValidMatch(offer.value, bid.value, rec) && ClearingInfo(cfg, offer.value, bid.value, rec.tradeRate).Some? {
      var o, b := offer.value, bid.value;
      var info := ClearingInfo(cfg, o, b, rec.tradeRate).value;
      var energy := Min(Min(rec.selectedEnergy, o.energy), b.energy);
      var (m1, r) := AcceptOffer(cfg, m, o.id, b.trader, Some(energy), Some(info), Some(b));
      OfferCoherence.StrandingIsRefused(cfg, m, o.id, Some(energy), Some(info));
      AcceptOfferMirrors(cfg, m, slots, o.id, b.trader, Some(energy), Some(info), Some(b));
      ValidAfterAcceptOffer(cfg, m, o.id, b.trader, Some(energy), Some(info), Some(b));
      if r.Ok? {
        AcceptOfferBooks(cfg, m, o.id, b.trader, Some(energy), Some(info), Some(b));
        MirrorsKnows(m, slots, Ops(AcceptOfferOps(cfg, m, o.id, Some(energy), Some(info)), []), m1);
        AcceptBidMirrors(cfg, m1, slots, b, Some(energy), o.trader, info, Some(o));
        MirrorsBoth(m, slots, Ops(AcceptOfferOps(cfg, m, o.id, Some(energy), Some(info)), []), m1,
                    Ops([], AcceptBidOps(cfg, m1, b, Some(energy))),
                    AcceptBid(cfg, m1, b, Some(energy), o.trader, info, Some(o)).0);
      }
    }
  }

  lemma MirrorsKnows(m: Market, slots: set<int>, ops: Ops, m': Market)
    requires Mirrors(m, slots, ops, m')
    ensures SlotsKnown(m', slots)
  {
  }

  lemma {:induction false} MatchAllMirrors(cfg: Config, m: Market, slots: set<int>, recs: seq<Recommendation>,
                                           traded: bool)
    requires Valid(m) && SlotsKnown(m, slots) && !MatchAllMishap(cfg, m, recs).StrandedResidual?
    ensures Mirrors(m, slots, MatchAllOps(cfg, m, recs), MatchAll(cfg, m, recs, traded).0)
    decreases |recs|
  {
    hide MatchOne, MatchOneOps, MatchOneMishap, Mirrors, SlotsKnown, Valid;
    if recs == [] {
      NothingMirrors(m, slots, m);
    } else {
      match MatchOne(cfg, m, recs[0])
      case Raised(_, _) => MatchOneMirrors(cfg, m, slots, recs[0]);
      case Skipped => MatchAllMirrors(cfg, m, slots, recs[1..], traded);
      case Traded(m1, ot, bt) =>
        if MatchOneMishap(cfg, m, recs[0]) != NoMishap {
          MatchOneMishapIsRaised(cfg, m, recs[0]);
        }
        MatchOneMirrors(cfg, m, slots, recs[0]);
        MirrorsKnows(m, slots, MatchOneOps(cfg, m, recs[0]), m1);
        ValidAfterMatchOne(cfg, m, recs[0]);
        var rest := Rewrite(recs[1..], ot, bt);
        MatchAllMirrors(cfg, m1, slots, rest, true);
        MirrorsBoth(m, slots, MatchOneOps(cfg, m, recs[0]), m1, MatchAllOps(cfg, m1, rest),
                    MatchAll(cfg, m1, rest, true).0);
    }
  }

  lemma FlagMirrors(m: Market, slots: set<int>, ops: Ops, m': Market)
    requires Mirrors(m, slots, ops, m')
    ensures Mirrors(m, slots, ops, m'.(noNewOrder := true))
  {
  }

  lemma {:induction false} LoopMirrors(cfg: Config, m: Market, slots: set<int>, matcher: Matcher)
    requires Valid(m) && SlotsKnown(m, slots) && !LoopMishap(cfg, m, matcher).StrandedResidual?
    ensures Mirrors(m, slots, LoopOps(cfg, m, matcher), MatchUntilDone(cfg, m, matcher).0)
    decreases Units(m)
  {
    hide MatchAll, MatchAllOps, MatchAllMishap, Mirrors, SlotsKnown, Valid;
    var pairs := matcher(m.offers, m.bids);
    if pairs == [] {
      NothingMirrors(m, slots, m);
      FlagMirrors(m, slots, NOTHING, m);
    } else {
      var (m1, r) := MatchAll(cfg, m, pairs, false);
      MatchAllMishapIsRaised(cfg, m, pairs, false);
      MatchAllMirrors(cfg, m, slots, pairs, false);
      if r == Ok(false) {
        FlagMirrors(m, slots, MatchAllOps(cfg, m, pairs), m1);
      } else if r == Ok(true) {
        MirrorsKnows(m, slots, MatchAllOps(cfg, m, pairs), m1);
        ValidAfterMatchAll(cfg, m, pairs, false);
        RoundDropsUnits(cfg, m, pairs);
        LoopMirrors(cfg, m1, slots, matcher);
        MirrorsBoth(m, slots, MatchAllOps(cfg, m, pairs), m1, LoopOps(cfg, m1, matcher),
                    MatchUntilDone(cfg, m1, matcher).0);
      }
    }
  }

  // Orders are posted into open slots only, and a bid is handed over for its own slot.
  ghost predicate Orderly(m: Market, slots: set<int>, a: Action) {
    && (a.PostsOffer? || a.PostsBid? ==> a.timeSlot in slots)
    && (a.AcceptsBid? ==> SameSlot(m, a.bid))
  }

  lemma StepMirrors(cfg: Config, matcher: Matcher, m: Market, slots: set<int>, a: Action)
    requires Valid(m) && SlotsKnown(m, slots) && Orderly(m, slots, a)
    requires !StepMishap(cfg, matcher, m, a).StrandedResidual?
    ensures Mirrors(m, slots, StepOps(cfg, matcher, m, a), Step(cfg, matcher, m, a).0)
  {
    hide AcceptOffer, AcceptBid, AcceptOfferOps, AcceptBidOps, MatchAll, MatchUntilDone, MatchAllOps, LoopOps, Valid,
         PostOffer, PostBid, DeleteOffer, DeleteBid, SameSlot, Mirrors, SlotsKnown, Strands, BidMishap,
         MatchAllMishap, LoopMishap;
    match a
    case PostsOffer(price, energy, trader, original, slot) =>
      PostOfferMirrors(cfg, m, slots, price, energy, trader, original, slot);
    case PostsBid(price, energy, trader, original, slot) =>
      PostBidMirrors(cfg, m, slots, price, energy, trader, original, slot);
    case DeletesOffer(id) => DeletionMirrors(m, slots, id);
    case DeletesBid(id) => DeletionMirrors(m, slots, id);
    case AcceptsOffer(id, trader, energy, info) =>
      AcceptOfferMirrors(cfg, m, slots, id, trader, energy, info, None);
    case AcceptsBid(bid, energy, trader, info) => AcceptBidMirrors(cfg, m, slots, bid, energy, trader, info, None);
    case Matches(recs) => MatchAllMirrors(cfg, m, slots, recs, false);
    case Ticks =>
      if m.noNewOrder {
        NothingMirrors(m, slots, m);
      } else {
        LoopMirrors(cfg, m, slots, matcher);
      }
    case AsksAverage => NothingMirrors(m, slots, Step(cfg, matcher, m, a).0);
  }

  lemma PostOfferMirrors(cfg: Config, m: Market, slots: set<int>, price: real, energy: real, seller: Trader,
                         originalPrice: Option<real>, timeSlot: int)
    requires Valid(m) && SlotsKnown(m, slots) && timeSlot in slots
    ensures var (m', r) := PostOffer(cfg, m, price, energy, seller, None, originalPrice, true, true, timeSlot);
            Mirrors(m, slots, Ops(if r.Ok? then [Assign(r.value)] else [], []), m')
  {
    hide Valid, OfferPriceWithFee;
    OffersAreDistinct(m);
    var (m', r) := PostOffer(cfg, m, price, energy, seller, None, originalPrice, true, true, timeSlot);
    if r.Ok? {
      PutFresh(m.offers, r.value);
      AssigningPlays(m.offers, slots, r.value);
    }
  }

  lemma PostBidMirrors(cfg: Config, m: Market, slots: set<int>, price: real, energy: real, buyer: Trader,
                       originalPrice: Option<real>, timeSlot: int)
    requires Valid(m) && SlotsKnown(m, slots) && timeSlot in slots
    ensures var (m', r) := PostBid(cfg, m, price, energy, buyer, None, originalPrice, true, true, timeSlot);
            Mirrors(m, slots, Ops([], if r.Ok? then [Assign(r.value)] else []), m')
  {
    hide Valid, BidPriceWithFee;
    OffersAreDistinct(m);
    var (m', r) := PostBid(cfg, m, price, energy, buyer, None, originalPrice, true, true, timeSlot);
    if r.Ok? {
      PutFresh(m.bids, r.value);
      AssigningPlays(m.bids, slots, r.value);
    }
  }

  lemma DeletionMirrors(m: Market, slots: set<int>, id: nat)
    requires Valid(m) && SlotsKnown(m, slots)
    ensures Mirrors(m, slots, Ops(if m.readonly then [] else [Take(id)], []), DeleteOffer(m, id).0)
    ensures Mirrors(m, slots, Ops([], [Take(id)]), DeleteBid(m, id).0)
  {
    hide Valid, Clean, Played, Pop, Distinct;
    OffersAreDistinct(m);
    DeletionPlays(m.offers, slots, id);
    DeletionPlays(m.bids, slots, id);
    NothingPlays(m.offers, slots);
    NothingPlays(m.bids, slots);
  }

  lemma NothingPlays(b: Book, slots: set<int>)
    ensures Clean(b, slots, []) && Played(b, []) == b
  {
  }

  lemma DeletionPlays(b: Book, slots: set<int>, id: nat)
    requires Distinct(b)
    ensures Clean(b, slots, [Take(id)]) && Played(b, [Take(id)]) == Pop(b, id)
    ensures Find(b, id).None? ==> Pop(b, id) == b
    ensures forall o :: o in Pop(b, id) ==> o in b
  {
    ShortPlays(b, slots, id);
    AfterPop(b, id);
    PopWhenAbsent(b, id);
  }

  // A failing acceptance that strands a residual is the one way the slot lists of the offers go
  // wrong: the original comes back beside the accepted piece, which nothing takes out again.
  lemma AcceptanceKeepsListsIff(cfg: Config, m: Market, x: Indexed, id: nat, buyer: Trader, energy: Option<real>,
                                info: Option<TradeInfo>, bid: Option<Order>)
    requires Valid(m) && x.data == m.offers && Coherent(x)
    ensures var (m', r) := AcceptOffer(cfg, m, id, buyer, energy, info, bid);
            var ops := AcceptOfferOps(cfg, m, id, energy, info);
            && Plays(x, ops)
            && PlayedIndexed(x, ops).data == m'.offers
            && (Coherent(PlayedIndexed(x, ops)) <==>
                !Strands(cfg, m, id, energy, info))
  {
    hide AcceptOffer, AcceptOfferOps, Coherent, Valid;
    var ops := AcceptOfferOps(cfg, m, id, energy, info);
    if Strands(cfg, m, id, energy, info) {
      StrandingBreaksLists(cfg, m, x, id, buyer, energy, info, bid);
    } else {
      ListsOfCoherent(x);
      AcceptOfferPlays(cfg, m, x.slots.Keys, id, buyer, energy, info, bid);
      CleanOpsKeepCoherence(x, ops);
    }
  }

  // ----- actions that strand a residual -----

  // The operations run through and lead to the offers the market has afterwards; the lists are
  // right again, or they are not.
  ghost predicate ListsAfter(x: Indexed, ops: seq<DictOp>, m': Market, right: bool) {
    Plays(x, ops) && PlayedIndexed(x, ops).data == m'.offers && (Coherent(PlayedIndexed(x, ops)) <==> right)
  }

  lemma MirroringKeepsLists(m: Market, x: Indexed, ops: Ops, m': Market)
    requires x.data == m.offers && Coherent(x) && Mirrors(m, x.slots.Keys, ops, m')
    ensures ListsAfter(x, ops.onOffers, m', true)
    ensures PlayedIndexed(x, ops.onOffers).slots.Keys == x.slots.Keys
  {
    CleanOpsKeepCoherence(x, ops.onOffers);
  }

  lemma ListsAfterBoth(x: Indexed, first: seq<DictOp>, m1: Market, second: seq<DictOp>, m2: Market)
    requires ListsAfter(x, first, m1, true) && ListsAfter(PlayedIndexed(x, first), second, m2, false)
    ensures ListsAfter(x, first + second, m2, false)
  {
    PlaysBoth(x, first, second);
  }

  lemma MatchOneBreaksLists(cfg: Config, m: Market, x: Indexed, rec: Recommendation)
    requires Valid(m) && x.data == m.offers && Coherent(x) && MatchOneMishap(cfg, m, rec).StrandedResidual?
    ensures MatchOne(cfg, m, rec).Raised?
    ensures ListsAfter(x, MatchOneOps(cfg, m, rec).onOffers, MatchOne(cfg, m, rec).market, false)
  {
    MatchOneMishapIsRaised(cfg, m, rec);
    ResolvedIsOpen(m, rec.offerId, rec.offerOrigin, rec.bidId, rec.bidOrigin);
    var o, b := Resolve(m.offers, rec.offerId, rec.offerOrigin).value, Resolve(m.bids, rec.bidId, rec.bidOrigin).value;
    var info := ClearingInfo(cfg, o, b, rec.tradeRate).value;
    var energy := Min(Min(rec.selectedEnergy, o.energy), b.energy);
    hide AcceptOffer, AcceptBid, AcceptOfferOps, AcceptBidOps, Coherent, Valid, StrandsResidual, OfferLegGoesThrough,
         BidLegGoesThrough;
    OfferCoherence.StrandingIsRefused(cfg, m, o.id, Some(energy), Some(info));
    OfferAcceptedIff(cfg, m, o.id, b.trader, Some(energy), Some(info), Some(b));
    StrandingBreaksLists(cfg, m, x, o.id, b.trader, Some(energy), Some(info), Some(b));
  }

  lemma {:induction false} MatchAllBreaksLists(cfg: Config, m: Market, x: Indexed, recs: seq<Recommendation>,
                                               traded: bool)
    requires Valid(m) && SlotsKnown(m, x.slots.Keys) && x.data == m.offers && Coherent(x)
    requires MatchAllMishap(cfg, m, recs).StrandedResidual?
    ensures ListsAfter(x, MatchAllOps(cfg, m, recs).onOffers, MatchAll(cfg, m, recs, traded).0, false)
    decreases |recs|
  {
    hide MatchOne, MatchOneOps, MatchOneMishap, Mirrors, SlotsKnown, Valid, Coherent, ListsAfter;
    match MatchOne(cfg, m, recs[0])
    case Raised(_, _) => MatchOneBreaksLists(cfg, m, x, recs[0]);
    case Skipped => MatchAllBreaksLists(cfg, m, x, recs[1..], traded);
    case Traded(m1, ot, bt) =>
      if MatchOneMishap(cfg, m, recs[0]) != NoMishap {
        MatchOneMishapIsRaised(cfg, m, recs[0]);
      }
      var ops, rest := MatchOneOps(cfg, m, recs[0]), Rewrite(recs[1..], ot, bt);
      MatchOneMirrors(cfg, m, x.slots.Keys, recs[0]);
      MirrorsKnows(m, x.slots.Keys, ops, m1);
      MirroringKeepsLists(m, x, ops, m1);
      ListsAfterParts(x, ops.onOffers, m1);
      ValidAfterMatchOne(cfg, m, recs[0]);
      MatchAllBreaksLists(cfg, m1, PlayedIndexed(x, ops.onOffers), rest, true);
      ListsAfterBoth(x, ops.onOffers, m1, MatchAllOps(cfg, m1, rest).onOffers, MatchAll(cfg, m1, rest, true).0);
  }

  lemma ListsAfterParts(x: Indexed, ops: seq<DictOp>, m': Market)
    requires ListsAfter(x, ops, m', true)
    ensures Plays(x, ops) && PlayedIndexed(x, ops).data == m'.offers && Coherent(PlayedIndexed(x, ops))
  {
  }

  lemma {:induction false} LoopBreaksLists(cfg: Config, m: Market, x: Indexed, matcher: Matcher)
    requires Valid(m) && SlotsKnown(m, x.slots.Keys) && x.data == m.offers && Coherent(x)
    requires LoopMishap(cfg, m, matcher).StrandedResidual?
    ensures ListsAfter(x, LoopOps(cfg, m, matcher).onOffers, MatchUntilDone(cfg, m, matcher).0, false)
    decreases Units(m)
  {
    hide MatchAll, MatchAllOps, MatchAllMishap, Mirrors, SlotsKnown, Valid, Coherent, ListsAfter;
    var pairs := matcher(m.offers, m.bids);
    var (m1, r) := MatchAll(cfg, m, pairs, false);
    MatchAllMishapIsRaised(cfg, m, pairs, false);
    if r == Ok(true) {
      var ops := MatchAllOps(cfg, m, pairs);
      MatchAllMirrors(cfg, m, x.slots.Keys, pairs, false);
      MirrorsKnows(m, x.slots.Keys, ops, m1);
      MirroringKeepsLists(m, x, ops, m1);
      ListsAfterParts(x, ops.onOffers, m1);
      ValidAfterMatchAll(cfg, m, pairs, false);
      RoundDropsUnits(cfg, m, pairs);
      LoopBreaksLists(cfg, m1, PlayedIndexed(x, ops.onOffers), matcher);
      ListsAfterBoth(x, ops.onOffers, m1, LoopOps(cfg, m1, matcher).onOffers, MatchUntilDone(cfg, m1, matcher).0);
    } else {
      MatchAllBreaksLists(cfg, m, x, pairs, false);
    }
  }

  // Whatever the action, the slot lists of the offers are right afterwards if and only if it strands
  // no residual.
  lemma StepKeepsListsIff(cfg: Config, matcher: Matcher, m: Market, x: Indexed, a: Action)
    requires Valid(m) && SlotsKnown(m, x.slots.Keys) && Orderly(m, x.slots.Keys, a)
    requires x.data == m.offers && Coherent(x)
    ensures ListsAfter(x, StepOps(cfg, matcher, m, a).onOffers, Step(cfg, matcher, m, a).0,
                       !StepMishap(cfg, matcher, m, a).StrandedResidual?)
  {
    hide AcceptOffer, AcceptBid, AcceptOfferOps, AcceptBidOps, MatchAll, MatchUntilDone, MatchAllOps, LoopOps, Valid,
         PostOffer, PostBid, DeleteOffer, DeleteBid, SlotsKnown, Coherent, Mirrors, Orderly, Strands,
         MatchAllMishap, LoopMishap;
    if !StepMishap(cfg, matcher, m, a).StrandedResidual? {
      StepMirrors(cfg, matcher, m, x.slots.Keys, a);
      MirroringKeepsLists(m, x, StepOps(cfg, matcher, m, a), Step(cfg, matcher, m, a).0);
    } else {
      match a
      case AcceptsOffer(id, trader, energy, info) => AcceptanceKeepsListsIff(cfg, m, x, id, trader, energy, info, None);
      case AcceptsBid(bid, energy, _, info) => OfferCoherence.BidMishapStrandsNothing(cfg, m, bid, energy, info);
      case Matches(recs) => MatchAllBreaksLists(cfg, m, x, recs, false);
      case Ticks => LoopBreaksLists(cfg, m, x, matcher);
    }
  }

  lemma ListsOfCoherent(x: Indexed)
    requires Coherent(x)
    ensures forall o :: o in x.data ==> o.timeSlot in x.slots
  {
  }

  lemma {:induction false} PlaysBoth(x: Indexed, first: seq<DictOp>, second: seq<DictOp>)
    requires Plays(x, first) && Plays(PlayedIndexed(x, first), second)
    ensures Plays(x, first + second)
    ensures PlayedIndexed(x, first + second) == PlayedIndexed(PlayedIndexed(x, first), second)
    decreases |first|
  {
    if first == [] {
      assert first + second == second;
    } else {
      assert (first + second)[1..] == first[1..] + second;
      PlaysBoth(match first[0] case Assign(o) => WithItem(x, o) case Take(k) => Taken(x, k), first[1..], second);
    }
  }

  lemma StrandingBreaksLists(cfg: Config, m: Market, x: Indexed, id: nat, buyer: Trader, energy: Option<real>,
                             info: Option<TradeInfo>, bid: Option<Order>)
    requires Valid(m) && x.data == m.offers && Coherent(x) && Strands(cfg, m, id, energy, info)
    ensures var ops := AcceptOfferOps(cfg, m, id, energy, info);
            && Plays(x, ops)
            && PlayedIndexed(x, ops).data == AcceptOffer(cfg, m, id, buyer, energy, info, bid).0.offers
            && !Coherent(PlayedIndexed(x, ops))
  {
    var o := Find(m.offers, id).value;
    var e := RequestedEnergy(energy, o.energy);
    OpenHasEnergy(m, id);
    FindIn(m.offers, id);
    OffersAreDistinct(m);
    PiecesKeepSlots(m);
    var accepted := AcceptedPiece(o, e, OriginalOfferPrice(o));
    var residual := ResidualPiece(o, e, OriginalOfferPrice(o), m.nextId);
    hide AcceptOffer, AcceptOfferOps, Coherent, Valid, AcceptedPiece, ResidualPiece, RequestedEnergy;
    ListsOfCoherent(x);
    var cut := [Take(id), Take(id), Assign(accepted), Assign(residual)];
    CuttingPlays(m.offers, x.slots.Keys, accepted, residual);
    CleanOpsKeepCoherence(x, cut);
    var y := PlayedIndexed(x, cut);
    assert [Assign(o)][1..] == [];
    PlaysBoth(x, cut, [Assign(o)]);
    AssigningKeepsCoherenceIff(y, o);
    RestoreBesideResidual(Pop(m.offers, id), accepted, residual, o);
  }

  lemma CuttingPlays(b: Book, slots: set<int>, accepted: Order, residual: Order)
    requires Distinct(b) && Find(b, residual.id).None? && accepted.id != residual.id
    requires accepted.timeSlot in slots && residual.timeSlot in slots
    ensures var ops := [Take(accepted.id), Take(accepted.id), Assign(accepted), Assign(residual)];
            var rest := Pop(b, accepted.id);
            && Clean(b, slots, ops) && Played(b, ops) == rest + [accepted, residual]
            && Find(rest, accepted.id).None? && Find(rest + [accepted, residual], accepted.id) == Some(accepted)
  {
    var rest := Pop(b, accepted.id);
    AfterPop(b, accepted.id);
    AfterAppend(rest, accepted);
    ShortPlays(b, slots, accepted.id);
    AssigningPlays(rest, slots, accepted);
    AssigningPlays(rest + [accepted], slots, residual);
    assert rest + [accepted] + [residual] == rest + [accepted, residual];
    AfterAppend(rest + [accepted], residual);
    var twice := [Take(accepted.id), Take(accepted.id)];
    BothPlayed(b, slots, twice, [Assign(accepted)]);
    BothPlayed(b, slots, twice + [Assign(accepted)], [Assign(residual)]);
    assert twice + [Assign(accepted)] + [Assign(residual)] ==
           [Take(accepted.id), Take(accepted.id), Assign(accepted), Assign(residual)];
  }
}