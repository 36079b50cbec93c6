/** The strategy's offer records agree with the market after every completed operation. */
module OfferCoherence {
  import opened Numeric
  import opened Books
  import opened Fees
  import opened MarketState
  import opened Acceptance
  import opened MatchingEngine
  import opened Runs
  import opened Mishaps
  import opened Conservation
  import opened StrategyOffers

  ghost predicate OwnOpen(m: Market, owner: string, id: nat) {
    Find(m.offers, id).Some? && Find(m.offers, id).value.trader.name == owner
  }

  // The market has taken the offer, but the strategy has not recorded it yet.
  ghost predicate Awaited(c: Cache, pending: map<nat, Order>, id: nat) {
    id in pending && id !in c.split && !IsSold(c, id)
  }

  // The orders an owner's booked trades were made with.
  function SoldOrders(owner: string, trades: seq<Trade>): Book {
    if trades == [] then []
    else
      var t, rest := trades[|trades| - 1], SoldOrders(owner, trades[..|trades| - 1]);
      if t.seller.name == owner && t.offer.Some? then rest + [t.offer.value] else rest
  }

  // Every trade of an offer is of the offer's energy, up to TOL, and every other trade of some.
  ghost predicate SmallRounding(trades: seq<Trade>) {
    && (forall t :: t in trades && t.offer.Some? ==> Abs(t.offer.value.energy - t.tradedEnergy) <= TOL)
    && (forall t :: t in trades && t.offer.None? ==> t.tradedEnergy > 0.0)
  }

  // Open in the records, or about to be recorded, is exactly what is open in the market, order by
  // order ...
  ghost predicate OpenAgree(owner: string, m: Market, c: Cache, pending: map<nat, Order>) {
    && (forall id :: OwnOpen(m, owner, id) <==> IsOpen(c, id) || Awaited(c, pending, id))
    && (forall id :: IsOpen(c, id) ==> Find(c.posted, id) == Find(m.offers, id))
    && (forall id :: Awaited(c, pending, id) ==> Find(m.offers, id) == Some(pending[id]))
    && (forall id :: IsSold(c, id) ==> Find(m.offers, id).None?)
  }

  // ... sold are, in order, the orders of the booked trades ...
  ghost predicate SoldAgree(owner: string, trades: seq<Trade>, c: Cache) {
    c.sold == SoldOrders(owner, trades) && SmallRounding(trades)
  }

  // ... and no recorded id is one that the market has yet to hand out.
  ghost predicate IdsAgree(nextId: nat, c: Cache, pending: map<nat, Order>) {
    && Distinct(c.posted)
    && (forall id: nat :: id in pending ==> id < nextId && Find(c.posted, id).None?)
    && (forall id: nat :: id in c.split ==> id < nextId && c.split[id].id == id && Find(c.posted, id).None?)
    && (forall id: nat :: Find(c.posted, id).Some? || IsSold(c, id) ==> id < nextId)
  }

  ghost predicate Coherent(owner: string, m: Market, c: Cache, pending: map<nat, Order>) {
    Valid(m) && OpenAgree(owner, m, c, pending) && SoldAgree(owner, m.trades, c) && IdsAgree(m.nextId, c, pending)
  }

  // ----- one trade -----

  lemma {:induction false} FindAppended(b: Book, o: Order, id: nat)
    ensures Find(b + [o], id).Some? <==> Find(b, id).Some? || o.id == id
  {
    if b == [] {
      assert b + [o] == [o];
    } else {
      assert (b + [o])[1..] == b[1..] + [o];
      FindAppended(b[1..], o, id);
    }
  }

  lemma {:induction false} AfterPut(b: Book, o: Order)
    requires Distinct(b)
    ensures Distinct(Put(b, o))
    ensures forall k :: Find(Put(b, o), k) == if k == o.id then Some(o) else Find(b, k)
  {
    if b != [] && b[0].id != o.id {
      AfterPut(b[1..], o);
      assert ([b[0]] + Put(b[1..], o))[1..] == Put(b[1..], o);
    }
  }

  lemma SoldMore(owner: string, trades: seq<Trade>, t: Trade)
    ensures SoldOrders(owner, trades + [t]) ==
            SoldOrders(owner, trades) + (if t.seller.name == owner && t.offer.Some? then [t.offer.value] else [])
  {
    assert (trades + [t])[..|trades|] == trades;
    assert SoldOrders(owner, trades) + [] == SoldOrders(owner, trades);
  }

  // The market's side of an offer trade: the order is gone and, after a split, a residual of the
  // same trader is open under a fresh id.
  ghost predicate TradedOut(m: Market, m': Market, id: nat, residual: Option<Order>, t: Trade) {
    && Find(m.offers, id).Some?
    && (forall k: nat :: Find(m'.offers, k) ==
          if k == id then None
          else if residual.Some? && k == residual.value.id then residual
          else Find(m.offers, k))
    && (residual.Some? ==> m.nextId <= residual.value.id < m'.nextId &&
                           residual.value.trader == Find(m.offers, id).value.trader)
    && m'.nextId >= m.nextId && m'.trades == m.trades + [t]
    && t.offer.Some? && t.offer.value.id == id && t.seller == Find(m.offers, id).value.trader
    && Abs(t.offer.value.energy - t.tradedEnergy) <= TOL
  }

  lemma WholeOfferTraded(owner: string, m: Market, m': Market, c: Cache, pending: map<nat, Order>, id: nat, t: Trade)
    requires Coherent(owner, m, c, pending) && Valid(m') && OwnOpen(m, owner, id)
    requires TradedOut(m, m', id, None, t)
    ensures Coherent(owner, m', AfterTrade(c, owner, t), pending)
  {
    hide Pop, Put, OffersValid, BidsValid, SoldOrders;
    var c' := AfterTrade(c, owner, t);
    SoldMore(owner, m.trades, t);
    forall k ensures IsSold(c', k) <==> IsSold(c, k) || k == id {
      FindAppended(c.sold, t.offer.value, k);
    }
    assert c'.posted == c.posted && c'.split == c.split;
    assert OpenAgree(owner, m', c', pending);
    assert IdsAgree(m'.nextId, c', pending);
  }

  // What a split and its trade leave in the records: the residual takes the original's place, and
  // the accepted piece is never posted.
  ghost predicate ResidualTookOver(c: Cache, c': Cache, accepted: Order, residual: Order) {
    && c'.split == c.split[accepted.id := accepted]
    && (forall k :: IsSold(c', k) <==> IsSold(c, k) || k == accepted.id)
    && Distinct(c'.posted)
    && (forall k :: Find(c'.posted, k) == if k == residual.id then Some(residual)
                                          else if k == accepted.id then None else Find(c.posted, k))
  }

  lemma PartTradeRecords(owner: string, c: Cache, original: Order, accepted: Order, residual: Order, t: Trade)
    requires Distinct(c.posted) && original.trader.name == owner == t.seller.name
    requires accepted.id == original.id != residual.id && residual.id !in c.split && !IsSold(c, original.id)
    requires t.offer.Some? && t.offer.value.id == original.id
    ensures var c' := AfterTrade(AfterSplit(c, owner, original, accepted, residual), owner, t);
            ResidualTookOver(c, c', accepted, residual) && c'.sold == c.sold + [t.offer.value]
  {
    AfterPut(c.posted, residual);
    AfterPop(Put(c.posted, residual), original.id);
    forall k ensures Find(c.sold + [t.offer.value], k).Some? <==> Find(c.sold, k).Some? || k == original.id {
      FindAppended(c.sold, t.offer.value, k);
    }
  }

  lemma TakeOverKeepsOpen(owner: string, m: Market, m': Market, c: Cache, c': Cache, pending: map<nat, Order>, id: nat,
                          accepted: Order, residual: Order, t: Trade)
    requires OpenAgree(owner, m, c, pending) && IdsAgree(m.nextId, c, pending) && OwnOpen(m, owner, id)
    requires TradedOut(m, m', id, Some(residual), t) && accepted.id == id
    requires ResidualTookOver(c, c', accepted, residual)
    ensures OpenAgree(owner, m', c', pending)
  {
  }

  lemma TakeOverKeepsIds(owner: string, m: Market, m': Market, c: Cache, c': Cache, pending: map<nat, Order>, id: nat,
                         accepted: Order, residual: Order, t: Trade)
    requires IdsAgree(m.nextId, c, pending) && id < m.nextId
    requires TradedOut(m, m', id, Some(residual), t) && accepted.id == id
    requires ResidualTookOver(c, c', accepted, residual)
    ensures IdsAgree(m'.nextId, c', pending)
  {
  }

  lemma PartOfferTraded(owner: string, m: Market, m': Market, c: Cache, pending: map<nat, Order>, id: nat,
                        accepted: Order, residual: Order, t: Trade)
    requires Coherent(owner, m, c, pending) && Valid(m') && OwnOpen(m, owner, id)
    requires TradedOut(m, m', id, Some(residual), t) && accepted.id == id && Find(m.offers, id).value.id == id
    ensures Coherent(owner, m',
                     AfterTrade(AfterSplit(c, owner, Find(m.offers, id).value, accepted, residual), owner, t), pending)
  {
    var original := Find(m.offers, id).value;
    var c' := AfterTrade(AfterSplit(c, owner, original, accepted, residual), owner, t);
    assert id < m.nextId && !IsSold(c, id) && residual.id !in c.split;
    hide AfterTrade, AfterSplit, OpenAgree, IdsAgree;
    PartTradeRecords(owner, c, original, accepted, residual, t);
    TakeOverKeepsOpen(owner, m, m', c, c', pending, id, accepted, residual, t);
    TakeOverKeepsIds(owner, m, m', c, c', pending, id, accepted, residual, t);
    SoldMore(owner, m.trades, t);
  }

  // A change that leaves the owner's open offers alone.
  lemma NothingOfTheOwners(owner: string, m: Market, m': Market, c: Cache, pending: map<nat, Order>)
    requires Coherent(owner, m, c, pending) && Valid(m') && m'.nextId >= m.nextId
    requires forall id :: OwnOpen(m, owner, id) <==> OwnOpen(m', owner, id)
    requires forall id :: OwnOpen(m, owner, id) ==> Find(m'.offers, id) == Find(m.offers, id)
    requires forall id: nat :: id < m.nextId && Find(m'.offers, id).Some? ==> Find(m.offers, id).Some?
    requires SoldOrders(owner, m'.trades) == SoldOrders(owner, m.trades) && SmallRounding(m'.trades)
    ensures Coherent(owner, m', c, pending)
  {
    hide OffersValid, BidsValid, SoldOrders;
  }

  // ----- operations -----

  // The records once the strategy has handled everything the market told since `m`.
  function Caught(c: Cache, owner: string, m: Market, m': Market): Cache
    requires |m.events| <= |m'.events|
  {
    HandledAll(c, owner, m'.events[|m.events|..])
  }

  lemma OfferTradedOut(cfg: Config, m: Market, id: nat, buyer: Trader, energy: Option<real>,
                       info: Option<TradeInfo>, bid: Option<Order>)
    requires Valid(m) && AcceptOffer(cfg, m, id, buyer, energy, info, bid).1.Ok?
    ensures var (m', r) := AcceptOffer(cfg, m, id, buyer, energy, info, bid);
            Valid(m') && TradedOut(m, m', id, r.value.residual, r.value)
  {
    ValidAfterAcceptOffer(cfg, m, id, buyer, energy, info, bid);
    hide AcceptOffer, RequestedEnergy, OfferTradePrice, BookAfter;
    AcceptedOfferEffect(cfg, m, id, buyer, energy, info, bid);
    AcceptedOfferTakes(cfg, m, id, buyer, energy, info, bid);
    FreshOffer(m.offers, m.nextId);
    FindBookAfter(m.offers, id, AcceptOffer(cfg, m, id, buyer, energy, info, bid).1.value.residual);
  }

  lemma AfterTwo(c: Cache, owner: string, e: Event, d: Event)
    ensures HandledAll(c, owner, [e]) == Handled(c, owner, e)
    ensures HandledAll(c, owner, [e, d]) == Handled(Handled(c, owner, e), owner, d)
  {
    assert [e, d][1..] == [d];
    assert HandledAll(Handled(c, owner, e), owner, [d]) == Handled(Handled(c, owner, e), owner, d);
  }

  lemma SuccessfulAcceptanceKeepsCoherence(cfg: Config, owner: string, m: Market, c: Cache, pending: map<nat, Order>,
                                           id: nat, buyer: Trader, energy: Option<real>, info: Option<TradeInfo>,
                                           bid: Option<Order>)
    requires Coherent(owner, m, c, pending) && AcceptOffer(cfg, m, id, buyer, energy, info, bid).1.Ok?
    ensures var m' := AcceptOffer(cfg, m, id, buyer, energy, info, bid).0;
            |m.events| <= |m'.events| && Coherent(owner, m', Caught(c, owner, m, m'), pending)
  {
    hide AcceptOffer, Coherent, AfterSplit, AfterTrade, ResidualPiece, AcceptedPiece, RequestedEnergy;
    CoherentIsValid(owner, m, c, pending);
    var (m', r) := AcceptOffer(cfg, m, id, buyer, energy, info, bid);
    AcceptedOfferEffect(cfg, m, id, buyer, energy, info, bid);
    var t, o := r.value, Find(m.offers, id).value;
    OfferTradedOut(cfg, m, id, buyer, energy, info, bid);
    var e := RequestedEnergy(energy, o.energy);
    var accepted := AcceptedPiece(o, e, OriginalOfferPrice(o));
    var news := m'.events[|m.events|..];
    PieceId(o, e, OriginalOfferPrice(o));
    if t.residual.Some? {
      assert news == [OfferSplit(o, accepted, t.residual.value), OfferTraded(t)];
      AfterTwo(c, owner, OfferSplit(o, accepted, t.residual.value), OfferTraded(t));
    } else {
      assert news == [OfferTraded(t)];
      AfterTwo(c, owner, OfferTraded(t), OfferTraded(t));
    }
    if o.trader.name != owner {
      SoldMore(owner, m.trades, t);
      ForeignOffer(owner, m, m', c, pending, id, t);
      ForeignEvents(c, owner, o, accepted, t);
    } else if t.residual.Some? {
      PartOfferTraded(owner, m, m', c, pending, id, accepted, t.residual.value, t);
    } else {
      WholeOfferTraded(owner, m, m', c, pending, id, t);
    }
  }

  lemma CoherentIsValid(owner: string, m: Market, c: Cache, pending: map<nat, Order>)
    requires Coherent(owner, m, c, pending)
    ensures Valid(m)
  {
  }

  lemma PieceId(o: Order, e: real, originalPrice: real)
    requires o.energy != 0.0
    ensures AcceptedPiece(o, e, originalPrice).id == o.id
  {
  }

  lemma ForeignEvents(c: Cache, owner: string, o: Order, accepted: Order, t: Trade)
    requires o.trader.name != owner && t.seller.name != owner
    ensures t.residual.Some? ==> AfterSplit(c, owner, o, accepted, t.residual.value) == c
    ensures AfterTrade(c, owner, t) == c
  {
  }

  lemma ForeignOffer(owner: string, m: Market, m': Market, c: Cache, pending: map<nat, Order>, id: nat, t: Trade)
    requires Coherent(owner, m, c, pending) && Valid(m') && !OwnOpen(m, owner, id)
    requires TradedOut(m, m', id, t.residual, t)
    ensures Coherent(owner, m', c, pending)
  {
    hide OffersValid, BidsValid;
    SoldMore(owner, m.trades, t);
    assert SoldOrders(owner, m.trades) + [] == SoldOrders(owner, m.trades);
    forall k: nat ensures OwnOpen(m, owner, k) <==> OwnOpen(m', owner, k) {
      if Find(m.offers, k).Some? {
        OldId(m, k);
      }
    }
    NothingOfTheOwners(owner, m, m', c, pending);
  }

  lemma OldId(m: Market, k: nat)
    requires Valid(m) && Find(m.offers, k).Some?
    ensures k < m.nextId
  {
    FindIn(m.offers, k);
  }

  lemma FindStranded(b: Book, id: nat, o: Order, residual: Order)
    requires Distinct(b) && Find(b, id) == Some(o) && o.id == id && Find(b, residual.id).None?
    ensures forall k :: Find(Pop(b, id) + [o, residual], k) ==
                        if k == residual.id then Some(residual) else Find(b, k)
  {
    AfterPop(b, id);
    AfterAppend(Pop(b, id), o);
    AfterAppend(Pop(b, id) + [o], residual);
    assert Pop(b, id) + [o] + [residual] == Pop(b, id) + [o, residual];
  }

  // A failing acceptance leaves the records right if and only if it strands nothing of the
  // owner's.
  lemma FailedAcceptanceKeepsCoherenceIff(cfg: Config, owner: string, m: Market, c: Cache, pending: map<nat, Order>,
                                          id: nat, buyer: Trader, energy: Option<real>, info: Option<TradeInfo>,
                                          bid: Option<Order>)
    requires Coherent(owner, m, c, pending) && AcceptOffer(cfg, m, id, buyer, energy, info, bid).1.Err?
    ensures var m' := AcceptOffer(cfg, m, id, buyer, energy, info, bid).0;
            && |m.events| <= |m'.events|
            && (Coherent(owner, m', Caught(c, owner, m, m'), pending) <==>
                !(Strands(cfg, m, id, energy, info) && OwnOpen(m, owner, id)))
  {
    FailedAcceptOfferIsAtomicIff(cfg, m, id, buyer, energy, info, bid);
    ValidAfterAcceptOffer(cfg, m, id, buyer, energy, info, bid);
    var m' := AcceptOffer(cfg, m, id, buyer, energy, info, bid).0;
    if Strands(cfg, m, id, energy, info) {
      var o := Find(m.offers, id).value;
      FindIn(m.offers, id);
      FreshOffer(m.offers, m.nextId);
      var e := RequestedEnergy(energy, o.energy);
      StrandedRecords(owner, m, m', c, pending, o, AcceptedPiece(o, e, OriginalOfferPrice(o)),
                      ResidualPiece(o, e, OriginalOfferPrice(o), m.nextId));
    } else {
      hide AcceptOffer, StrandsResidual, OffersValid, BidsValid;
      assert m'.events[|m.events|..] == [];
      NothingOfTheOwners(owner, m, m', c, pending);
    }
  }

  lemma StrandedRecords(owner: string, m: Market, m': Market, c: Cache, pending: map<nat, Order>, o: Order,
                        accepted: Order, residual: Order)
    requires Coherent(owner, m, c, pending) && Valid(m') && Find(m.offers, o.id) == Some(o)
    requires residual.id == m.nextId && residual.trader == o.trader && Find(m.offers, m.nextId).None?
    requires m'.offers == Pop(m.offers, o.id) + [o, residual] && m'.nextId == m.nextId + 1 && m'.trades == m.trades
    requires m'.events == m.events + [OfferSplit(o, accepted, residual)] && accepted.id == o.id
    ensures Coherent(owner, m', Caught(c, owner, m, m'), pending) <==> o.trader.name != owner
  {
    hide OffersValid, BidsValid, Pop, SoldOrders;
    var split := OfferSplit(o, accepted, residual);
    assert m'.events[|m.events|..] == [split];
    AfterTwo(c, owner, split, split);
    var c1 := AfterSplit(c, owner, o, accepted, residual);
    assert Caught(c, owner, m, m') == c1;
    FindStrandedIn(m, o, residual);
    if o.trader.name != owner {
      NothingOfTheOwners(owner, m, m', c, pending);
    } else {
      AfterPut(c.posted, residual);
      AfterPop(Put(c.posted, residual), o.id);
      assert OwnOpen(m, owner, o.id) && OwnOpen(m', owner, o.id);
      assert !IsSold(c, o.id) && o.id < m.nextId;
      assert o.id in c1.split && Find(c1.posted, o.id).None?;
      assert !IsOpen(c1, o.id) && !Awaited(c1, pending, o.id);
    }
  }

  lemma FindStrandedIn(m: Market, o: Order, residual: Order)
    requires Valid(m) && Find(m.offers, o.id) == Some(o) && Find(m.offers, residual.id).None?
    ensures forall k :: Find(Pop(m.offers, o.id) + [o, residual], k) ==
                        if k == residual.id then Some(residual) else Find(m.offers, k)
  {
    FindStranded(m.offers, o.id, o, residual);
  }

  // What is told about bids does not concern the offer records.
  lemma {:induction false} BidNewsIsIgnored(c: Cache, owner: string, news: seq<Event>)
    requires forall e :: e in news ==> AboutBids(e)
    ensures HandledAll(c, owner, news) == c
  {
    if news != [] {
      assert news[0] in news;
      BidNewsIsIgnored(c, owner, news[1..]);
    }
  }

  // Catching up in two goes.
  lemma {:induction false} HandledBoth(c: Cache, owner: string, a: seq<Event>, b: seq<Event>)
    ensures HandledAll(c, owner, a + b) == HandledAll(HandledAll(c, owner, a), owner, b)
    decreases |a|
  {
    if a == [] {
      assert a + b == b;
    } else {
      assert (a + b)[1..] == a[1..] + b;
      HandledBoth(Handled(c, owner, a[0]), owner, a[1..], b);
    }
  }

  lemma CaughtUp(c: Cache, owner: string, m: Market, m1: Market, m2: Market)
    requires m.events <= m1.events <= m2.events
    ensures Caught(c, owner, m, m2) == Caught(Caught(c, owner, m, m1), owner, m1, m2)
  {
    HandledBoth(c, owner, m1.events[|m.events|..], m2.events[|m1.events|..]);
    assert m2.events[|m.events|..] == m1.events[|m.events|..] + m2.events[|m1.events|..];
  }

  // The log only grows, and the records are right afterwards exactly if the owner was not hurt.
  ghost predicate KeepsUnless(owner: string, m: Market, c: Cache, pending: map<nat, Order>, m': Market, hurt: bool) {
    m.events <= m'.events && (Coherent(owner, m', Caught(c, owner, m, m'), pending) <==> !hurt)
  }

  // An operation that hurts nobody.
  ghost predicate Keeps(owner: string, m: Market, c: Cache, pending: map<nat, Order>, m': Market) {
    KeepsUnless(owner, m, c, pending, m', false)
  }

  lemma KeepsBoth(owner: string, m: Market, c: Cache, pending: map<nat, Order>, m1: Market, m2: Market, hurt: bool)
    requires Keeps(owner, m, c, pending, m1) && KeepsUnless(owner, m1, Caught(c, owner, m, m1), pending, m2, hurt)
    ensures KeepsUnless(owner, m, c, pending, m2, hurt)
  {
    CaughtUp(c, owner, m, m1, m2);
  }

  // The mishap is the owner's: a residual of its own was stranded.
  predicate HurtsOwner(x: Mishap, owner: string) {
    x.StrandedResidual? && x.offer.trader.name == owner
  }

  lemma AcceptanceKeepsIff(cfg: Config, owner: string, m: Market, c: Cache, pending: map<nat, Order>,
                           id: nat, buyer: Trader, energy: Option<real>, info: Option<TradeInfo>, bid: Option<Order>)
    requires Coherent(owner, m, c, pending)
    ensures KeepsUnless(owner, m, c, pending, AcceptOffer(cfg, m, id, buyer, energy, info, bid).0,
                        HurtsOwner(OfferMishap(cfg, m, id, energy, info), owner))
  {
    hide AcceptOffer, Coherent, StrandsResidual, OfferLegGoesThrough;
    CoherentIsValid(owner, m, c, pending);
    LogOfAcceptOffer(cfg, m, id, buyer, energy, info, bid);
    OfferAcceptedIff(cfg, m, id, buyer, energy, info, bid);
    StrandingIsRefused(cfg, m, id, energy, info);
    if AcceptOffer(cfg, m, id, buyer, energy, info, bid).1.Ok? {
      SuccessfulAcceptanceKeepsCoherence(cfg, owner, m, c, pending, id, buyer, energy, info, bid);
    } else {
      FailedAcceptanceKeepsCoherenceIff(cfg, owner, m, c, pending, id, buyer, energy, info, bid);
    }
  }

  lemma StrandingIsRefused(cfg: Config, m: Market, id: nat, energy: Option<real>, info: Option<TradeInfo>)
    ensures Strands(cfg, m, id, energy, info) ==>
              !OfferLegGoesThrough(cfg, Find(m.offers, id).value, energy, info)
  {
  }

  lemma AcceptBidKeeps(cfg: Config, owner: string, m: Market, c: Cache, pending: map<nat, Order>, bid: Order,
                       energy: Option<real>, seller: Trader, info: TradeInfo, offer: Option<Order>)
    requires Coherent(owner, m, c, pending)
    ensures Keeps(owner, m, c, pending, AcceptBid(cfg, m, bid, energy, seller, info, offer).0)
  {
    hide AcceptBid, AboutBids, OffersValid, BidsValid;
    var m' := AcceptBid(cfg, m, bid, energy, seller, info, offer).0;
    var news := NewsOfAcceptBid(cfg, m, bid, energy, seller, info, offer);
    ValidAfterAcceptBid(cfg, m, bid, energy, seller, info, offer);
    assert m'.events[|m.events|..] == news;
    BidNewsIsIgnored(c, owner, news);
    TradesOfAcceptBid(cfg, m, bid, energy, seller, info, offer);
    if m'.trades != m.trades {
      SoldMore(owner, m.trades, m'.trades[|m.trades|]);
      assert SoldOrders(owner, m.trades) + [] == SoldOrders(owner, m.trades);
    }
    NothingOfTheOwners(owner, m, m', c, pending);
  }

  lemma TradesOfAcceptBid(cfg: Config, m: Market, bid: Order, energy: Option<real>, seller: Trader,
                          info: TradeInfo, offer: Option<Order>)
    requires Valid(m)
    ensures var m' := AcceptBid(cfg, m, bid, energy, seller, info, offer).0;
            && m'.nextId >= m.nextId
            && (m'.trades == m.trades ||
                (|m'.trades| == |m.trades| + 1 && m'.trades == m.trades + [m'.trades[|m.trades|]] &&
                 m'.trades[|m.trades|].offer.None? && m'.trades[|m.trades|].tradedEnergy > 0.0))
  {
    hide Pop, BidTradePrice, AcceptedPiece, ResidualPiece, RequestedEnergy, AddOrCreate;
  }

  lemma LogOfAcceptOffer(cfg: Config, m: Market, id: nat, buyer: Trader, energy: Option<real>,
                         info: Option<TradeInfo>, bid: Option<Order>)
    requires Valid(m)
    ensures m.events <= AcceptOffer(cfg, m, id, buyer, energy, info, bid).0.events
  {
    hide Pop, OfferTradePrice, AcceptedPiece, ResidualPiece, RequestedEnergy, AddOrCreate;
  }

  lemma PairKeepsIff(cfg: Config, owner: string, m: Market, c: Cache, pending: map<nat, Order>, bid: Order,
                     offer: Order, info: TradeInfo, energy: real)
    requires Coherent(owner, m, c, pending) && Valid(m) && Find(m.offers, offer.id) == Some(offer)
    ensures KeepsUnless(owner, m, c, pending, AcceptPair(cfg, m, bid, offer, info, energy).0,
                        HurtsOwner(PairMishap(cfg, m, bid, offer, info, energy), owner))
  {
    hide AcceptOffer, AcceptBid, Coherent, Valid, StrandsResidual, OfferLegGoesThrough, LosesBid;
    var m1 := AcceptOffer(cfg, m, offer.id, bid.trader, Some(energy), Some(info), Some(bid)).0;
    AcceptanceKeepsIff(cfg, owner, m, c, pending, offer.id, bid.trader, Some(energy), Some(info), Some(bid));
    OfferAcceptedIff(cfg, m, offer.id, bid.trader, Some(energy), Some(info), Some(bid));
    StrandingIsRefused(cfg, m, offer.id, Some(energy), Some(info));
    if AcceptOffer(cfg, m, offer.id, bid.trader, Some(energy), Some(info), Some(bid)).1.Ok? {
      var c1 := Caught(c, owner, m, m1);
      ValidAfterAcceptOffer(cfg, m, offer.id, bid.trader, Some(energy), Some(info), Some(bid));
      AcceptBidKeeps(cfg, owner, m1, c1, pending, bid, Some(energy), offer.trader, info, Some(offer));
      var m2 := AcceptBid(cfg, m1, bid, Some(energy), offer.trader, info, Some(offer)).0;
      KeepsBoth(owner, m, c, pending, m1, m2, false);
    }
  }

  lemma MatchOneKeepsIff(cfg: Config, owner: string, m: Market, c: Cache, pending: map<nat, Order>, rec: Recommendation)
    requires Coherent(owner, m, c, pending) && Valid(m) && !MatchOne(cfg, m, rec).Skipped?
    ensures KeepsUnless(owner, m, c, pending, MatchOne(cfg, m, rec).market,
                        HurtsOwner(MatchOneMishap(cfg, m, rec), owner))
  {
    hide AcceptPair, PairMishap, Coherent, Valid;
    ResolvedIsOpen(m, rec.offerId, rec.offerOrigin, rec.bidId, rec.bidOrigin);
    var offer := Resolve(m.offers, rec.offerId, rec.offerOrigin);
    var bid := Resolve(m.bids, rec.bidId, rec.bidOrigin);
    assert m.events[|m.events|..] == [];
    if offer.Some? && bid.Some? && ClearingInfo(cfg, offer.value, bid.value, rec.tradeRate).Some? {
      PairKeepsIff(cfg, owner, m, c, pending, bid.value, offer.value,
                   ClearingInfo(cfg, offer.value, bid.value, rec.tradeRate).value,
                   Min(Min(rec.selectedEnergy, offer.value.energy), bid.value.energy));
    }
  }

  lemma {:induction false} MatchAllKeepsIff(cfg: Config, owner: string, m: Market, c: Cache, pending: map<nat, Order>,
                                            recs: seq<Recommendation>, traded: bool)
    requires Coherent(owner, m, c, pending) && Valid(m)
    ensures KeepsUnless(owner, m, c, pending, MatchAll(cfg, m, recs, traded).0,
                        HurtsOwner(MatchAllMishap(cfg, m, recs), owner))
    decreases |recs|
  {
    hide MatchOne, MatchOneMishap, Coherent, Valid;
    assert m.events[|m.events|..] == [];
    if recs != [] {
      if !MatchOne(cfg, m, recs[0]).Skipped? {
        MatchOneKeepsIff(cfg, owner, m, c, pending, recs[0]);
      }
      match MatchOne(cfg, m, recs[0])
      case Raised(_, _) =>
      case Skipped => MatchAllKeepsIff(cfg, owner, m, c, pending, recs[1..], traded);
      case Traded(m1, ot, bt) =>
        if MatchOneMishap(cfg, m, recs[0]) != NoMishap {
          MatchOneMishapIsRaised(cfg, m, recs[0]);
        }
        var rest, c1 := Rewrite(recs[1..], ot, bt), Caught(c, owner, m, m1);
        ValidAfterMatchOne(cfg, m, recs[0]);
        MatchAllKeepsIff(cfg, owner, m1, c1, pending, rest, true);
        KeepsBoth(owner, m, c, pending, m1, MatchAll(cfg, m1, rest, true).0,
                  HurtsOwner(MatchAllMishap(cfg, m1, rest), owner));
    }
  }

  lemma FlagKeeps(owner: string, m: Market, c: Cache, pending: map<nat, Order>)
    requires Coherent(owner, m, c, pending)
    ensures Keeps(owner, m, c, pending, m.(noNewOrder := true))
  {
    assert m.events[|m.events|..] == [];
  }

  lemma {:induction false} LoopKeepsIff(cfg: Config, owner: string, m: Market, c: Cache, pending: map<nat, Order>,
                                        matcher: Matcher)
    requires Coherent(owner, m, c, pending) && Valid(m)
    ensures KeepsUnless(owner, m, c, pending, MatchUntilDone(cfg, m, matcher).0,
                        HurtsOwner(LoopMishap(cfg, m, matcher), owner))
    decreases Units(m)
  {
    hide MatchAll, MatchAllMishap, Coherent, Valid;
    var pairs := matcher(m.offers, m.bids);
    if pairs == [] {
      FlagKeeps(owner, m, c, pending);
    } else {
      var (m1, r) := MatchAll(cfg, m, pairs, false);
      MatchAllKeepsIff(cfg, owner, m, c, pending, pairs, false);
      var c1 := Caught(c, owner, m, m1);
      MatchAllMishapIsRaised(cfg, m, pairs, false);
      ValidAfterMatchAll(cfg, m, pairs, false);
      if r == Ok(false) {
        FlagKeeps(owner, m1, c1, pending);
        KeepsBoth(owner, m, c, pending, m1, m1.(noNewOrder := true), false);
      } else if r == Ok(true) {
        RoundDropsUnits(cfg, m, pairs);
        LoopKeepsIff(cfg, owner, m1, c1, pending, matcher);
        KeepsBoth(owner, m, c, pending, m1, MatchUntilDone(cfg, m1, matcher).0,
                  HurtsOwner(LoopMishap(cfg, m1, matcher), owner));
      }
    }
  }

  // An action of somebody else: the owner's offers are only posted and deleted by its strategy.
  ghost predicate Foreign(owner: string, m: Market, a: Action) {
    && (a.PostsOffer? ==> a.trader.name != owner)
    && (a.DeletesOffer? ==> !OwnOpen(m, owner, a.id))
  }

  lemma ForeignPostKeeps(cfg: Config, owner: string, m: Market, c: Cache, pending: map<nat, Order>, price: real,
                         energy: real, seller: Trader, originalPrice: Option<real>, timeSlot: int)
    requires Coherent(owner, m, c, pending) && seller.name != owner
    ensures Keeps(owner, m, c, pending,
                  PostOffer(cfg, m, price, energy, seller, None, originalPrice, true, true, timeSlot).0)
  {
    hide OffersValid, BidsValid, OfferPriceWithFee;
    var (m', r) := PostOffer(cfg, m, price, energy, seller, None, originalPrice, true, true, timeSlot);
    ValidAfterPostOffer(cfg, m, price, energy, seller, originalPrice, true, true, timeSlot);
    if r.Ok? {
      FreshOffer(m.offers, m.nextId);
      DistinctOffers(m);
      AfterPut(m.offers, r.value);
      assert m'.events[|m.events|..] == [OfferPosted(r.value)];
      AfterTwo(c, owner, OfferPosted(r.value), OfferPosted(r.value));
      NothingOfTheOwners(owner, m, m', c, pending);
    } else {
      assert m'.events[|m.events|..] == [];
    }
  }

  lemma DistinctOffers(m: Market)
    requires Valid(m)
    ensures Distinct(m.offers)
  {
  }

  lemma ForeignDeleteKeeps(owner: string, m: Market, c: Cache, pending: map<nat, Order>, id: nat)
    requires Coherent(owner, m, c, pending) && !OwnOpen(m, owner, id)
    ensures Keeps(owner, m, c, pending, DeleteOffer(m, id).0)
  {
    hide OffersValid, BidsValid;
    var (m', r) := DeleteOffer(m, id);
    ValidAfterDeleting(m, id);
    if r.Ok? {
      DistinctOffers(m);
      AfterPop(m.offers, id);
      assert m'.events[|m.events|..] == [OfferDeleted(r.value)];
      AfterTwo(c, owner, OfferDeleted(r.value), OfferDeleted(r.value));
      NothingOfTheOwners(owner, m, m', c, pending);
    } else {
      assert m'.events[|m.events|..] == [];
    }
  }

  // Postings and deletions of bids, and queries.
  lemma BesidesOffersKeeps(owner: string, m: Market, c: Cache, pending: map<nat, Order>, m': Market)
    requires Coherent(owner, m, c, pending) && Valid(m') && m'.offers == m.offers && m'.trades == m.trades
    requires m'.nextId >= m.nextId
    requires m'.events == m.events || (exists e :: AboutBids(e) && m'.events == m.events + [e])
    ensures Keeps(owner, m, c, pending, m')
  {
    if m'.events == m.events {
      assert m'.events[|m.events|..] == [];
    } else {
      var e :| AboutBids(e) && m'.events == m.events + [e];
      assert m'.events[|m.events|..] == [e];
      BidNewsIsIgnored(c, owner, [e]);
    }
    NothingOfTheOwners(owner, m, m', c, pending);
  }

  // Every action of somebody else keeps the records right if and only if it strands no residual of
  // the owner's, whatever else it raises.
  lemma StepKeepsIff(cfg: Config, matcher: Matcher, owner: string, m: Market, c: Cache, pending: map<nat, Order>,
                     a: Action)
    requires Coherent(owner, m, c, pending) && Foreign(owner, m, a) && Valid(m)
    ensures KeepsUnless(owner, m, c, pending, Step(cfg, matcher, m, a).0,
                        HurtsOwner(StepMishap(cfg, matcher, m, a), owner))
  {
    hide AcceptOffer, AcceptBid, MatchAll, MatchUntilDone, Coherent, Valid, PostOffer, DeleteOffer, BidPriceWithFee,
         OfferMishap, BidMishap, MatchAllMishap, LoopMishap;
    var m' := Step(cfg, matcher, m, a).0;
    ValidAfterStep(cfg, matcher, m, a);
    match a
    case PostsOffer(price, energy, trader, original, slot) =>
      ForeignPostKeeps(cfg, owner, m, c, pending, price, energy, trader, original, slot);
    case PostsBid(_, _, _, _, _) =>
      assert m' == m || m'.events == m.events + [m'.events[|m.events|]];
      BesidesOffersKeeps(owner, m, c, pending, m');
    case DeletesOffer(id) => ForeignDeleteKeeps(owner, m, c, pending, id);
    case DeletesBid(id) =>
      assert m' == m || m'.events == m.events + [m'.events[|m.events|]];
      BesidesOffersKeeps(owner, m, c, pending, m');
    case AcceptsOffer(id, trader, energy, info) =>
      AcceptanceKeepsIff(cfg, owner, m, c, pending, id, trader, energy, info, None);
    case AcceptsBid(bid, energy, trader, info) =>
      AcceptBidKeeps(cfg, owner, m, c, pending, bid, energy, trader, info, None);
      BidMishapStrandsNothing(cfg, m, bid, energy, info);
    case Matches(recs) => MatchAllKeepsIff(cfg, owner, m, c, pending, recs, false);
    case Ticks =>
      if m.noNewOrder {
        BesidesOffersKeeps(owner, m, c, pending, m');
      } else {
        LoopKeepsIff(cfg, owner, m, c, pending, matcher);
      }
    case AsksAverage => BesidesOffersKeeps(owner, m, c, pending, m');
  }

  lemma BidMishapStrandsNothing(cfg: Config, m: Market, bid: Order, energy: Option<real>, info: TradeInfo)
    requires Valid(m)
    ensures !BidMishap(cfg, m, bid, energy, info).StrandedResidual?
  {
  }
}
