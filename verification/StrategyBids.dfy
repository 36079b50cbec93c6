/** A strategy's own records of its bids in one market, fed by split, trade and deletion events.
    Between a split and its trade the original and the accepted piece are both recorded, under the
    same id; after every completed operation the list is the market's, order by order. */
module StrategyBids {
  import opened Numeric
  import opened Books
  import opened Fees
  import opened MarketState
  import opened Acceptance
  import opened MatchingEngine
  import opened Runs
  import opened Mishaps
  import opened Conservation
  import opened BidConservation

  datatype BidCache = BidCache(bids: Book, traded: Book)

  function Handled(c: BidCache, owner: string, e: Event): BidCache {
    match e
    case BidSplit(_, accepted, residual) =>
      if accepted.trader.name == owner then c.(bids := c.bids + [accepted, residual]) else c
    case BidTraded(t) =>
      if t.buyer.name == owner && t.bid.Some?
      then BidCache(Pop(c.bids, t.bid.value.id), c.traded + [t.bid.value]) else c
    case BidDeleted(b) =>
      if b.trader.name == owner then c.(bids := Pop(c.bids, b.id)) else c
    case _ => c
  }

  function HandledAll(c: BidCache, owner: string, events: seq<Event>): BidCache
    decreases |events|
  {
    if events == [] then c else HandledAll(Handled(c, owner, events[0]), owner, events[1..])
  }

  // The open bids of a buyer, in the market's order.
  function Owned(b: Book, owner: string): Book {
    if b == [] then []
    else (if b[0].trader.name == owner then [b[0]] else []) + Owned(b[1..], owner)
  }

  ghost predicate Agree(owner: string, m: Market, c: BidCache) {
    Valid(m) && c.bids == Owned(m.bids, owner)
  }

  lemma {:induction false} OwnedAppend(b: Book, c: Book, owner: string)
    ensures Owned(b + c, owner) == Owned(b, owner) + Owned(c, owner)
  {
    if b == [] {
      assert b + c == c;
    } else {
      assert (b + c)[1..] == b[1..] + c;
      OwnedAppend(b[1..], c, owner);
      Regroup(if b[0].trader.name == owner then [b[0]] else [], Owned(b[1..], owner), Owned(c, owner));
    }
  }

  lemma {:induction false} OwnedPop(b: Book, id: nat, owner: string)
    ensures Owned(Pop(b, id), owner) == Pop(Owned(b, owner), id)
  {
    if b != [] {
      OwnedPop(b[1..], id, owner);
      if b[0].id == id {
        if b[0].trader.name == owner {
          assert ([b[0]] + Owned(b[1..], owner))[1..] == Owned(b[1..], owner);
        } else {
          assert [] + Owned(b[1..], owner) == Owned(b[1..], owner);
        }
      } else {
        assert ([b[0]] + Pop(b[1..], id))[1..] == Pop(b[1..], id);
        if b[0].trader.name == owner {
          assert ([b[0]] + Owned(b[1..], owner))[1..] == Owned(b[1..], owner);
        } else {
          assert [] + Owned(b[1..], owner) == Owned(b[1..], owner);
          assert [] + Owned(Pop(b[1..], id), owner) == Owned(Pop(b[1..], id), owner);
        }
      }
    }
  }

  lemma {:induction false} OwnedIn(b: Book, owner: string, o: Order)
    ensures o in Owned(b, owner) <==> o in b && o.trader.name == owner
  {
    if b != [] {
      OwnedIn(b[1..], owner, o);
      assert b == [b[0]] + b[1..];
    }
  }

  // A bid of another buyer does not show in the list.
  lemma {:induction false} ForeignPop(b: Book, id: nat, owner: string)
    requires Distinct(b) && Find(b, id).Some? && Find(b, id).value.trader.name != owner
    ensures Owned(Pop(b, id), owner) == Owned(b, owner)
  {
    if b[0].id == id {
      PopAbsent(b[1..], id);
    } else {
      ForeignPop(b[1..], id, owner);
      assert ([b[0]] + Pop(b[1..], id))[1..] == Pop(b[1..], id);
    }
  }

  lemma OwnedSingle(o: Order, owner: string)
    ensures Owned([o], owner) == if o.trader.name == owner then [o] else []
  {
    assert [o][1..] == [];
  }

  // ----- catching up -----

  function Caught(c: BidCache, owner: string, m: Market, m': Market): BidCache
    requires |m.events| <= |m'.events|
  {
    HandledAll(c, owner, m'.events[|m.events|..])
  }

  // The log only grows, and the records are right afterwards exactly if the owner was not hurt.
  ghost predicate KeepsUnless(owner: string, m: Market, c: BidCache, m': Market, hurt: bool) {
    m.events <= m'.events && (Agree(owner, m', Caught(c, owner, m, m')) <==> !hurt)
  }

  ghost predicate Keeps(owner: string, m: Market, c: BidCache, m': Market) {
    KeepsUnless(owner, m, c, m', false)
  }

  lemma {:induction false} HandledBoth(c: BidCache, owner: string, a: seq<Event>, b: seq<Event>)
    ensures HandledAll(c, owner, a + b) == HandledAll(HandledAll(c, owner, a), owner, b)
    decreases |a|
  {
    if a == [] {
      assert a + b == b;
    } else {
      assert (a + b)[1..] == a[1..] + b;
      HandledBoth(Handled(c, owner, a[0]), owner, a[1..], b);
    }
  }

  lemma KeepsBoth(owner: string, m: Market, c: BidCache, m1: Market, m2: Market, hurt: bool)
    requires Keeps(owner, m, c, m1) && KeepsUnless(owner, m1, Caught(c, owner, m, m1), m2, hurt)
    ensures KeepsUnless(owner, m, c, m2, hurt)
  {
    HandledBoth(c, owner, m1.events[|m.events|..], m2.events[|m1.events|..]);
    assert m2.events[|m.events|..] == m1.events[|m.events|..] + m2.events[|m1.events|..];
  }

  lemma {:induction false} OfferNewsIsIgnored(c: BidCache, owner: string, news: seq<Event>)
    requires forall e :: e in news ==> !AboutBids(e)
    ensures HandledAll(c, owner, news) == c
  {
    if news != [] {
      assert news[0] in news;
      OfferNewsIsIgnored(c, owner, news[1..]);
    }
  }

  lemma BesidesBidsKeeps(owner: string, m: Market, c: BidCache, m': Market, news: seq<Event>)
    requires Agree(owner, m, c) && Valid(m') && m'.bids == m.bids && m'.events == m.events + news
    requires forall e :: e in news ==> !AboutBids(e)
    ensures Keeps(owner, m, c, m')
  {
    assert m'.events[|m.events|..] == news;
    OfferNewsIsIgnored(c, owner, news);
  }

  lemma OneEvent(c: BidCache, owner: string, m: Market, m': Market, e: Event)
    requires m'.events == m.events + [e]
    ensures Caught(c, owner, m, m') == Handled(c, owner, e)
  {
    assert m'.events[|m.events|..] == [e];
    One(c, owner, e);
  }

  // ----- acceptance -----

  lemma TradedBidNews(c: BidCache, owner: string, split: Event, traded: Event, posted: Event)
    requires posted.BidPosted?
    ensures HandledAll(c, owner, [split] + [traded] + [posted]) == Handled(Handled(c, owner, split), owner, traded)
    ensures HandledAll(c, owner, [] + [traded] + []) == Handled(c, owner, traded)
  {
    assert [split] + [traded] + [posted] == [split] + ([traded] + [posted]);
    HandledBoth(c, owner, [split], [traded] + [posted]);
    HandledBoth(Handled(c, owner, split), owner, [traded], [posted]);
    assert [] + [traded] + [] == [traded];
    One(c, owner, split);
    One(c, owner, traded);
    One(Handled(c, owner, split), owner, traded);
    One(Handled(Handled(c, owner, split), owner, traded), owner, posted);
  }

  lemma One(c: BidCache, owner: string, e: Event)
    ensures HandledAll(c, owner, [e]) == Handled(c, owner, e)
  {
    assert [e][1..] == [];
  }

  // The bid handed to accept_bid is the one that is open, if any is.
  ghost predicate IsMarketBid(m: Market, bid: Order) {
    Find(m.bids, bid.id).None? || Find(m.bids, bid.id) == Some(bid)
  }

  // What the records make of a trade's news: after a split both pieces are in for a moment.
  lemma RecordsAfterTrade(cfg: Config, owner: string, m: Market, c: BidCache, bid: Order, energy: Option<real>,
                          seller: Trader, info: TradeInfo, offer: Option<Order>)
    requires Valid(m) && Find(m.bids, bid.id) == Some(bid) && bid.energy > 0.0
    requires AcceptBid(cfg, m, bid, energy, seller, info, offer).1.Ok?
    ensures var (m', r) := AcceptBid(cfg, m, bid, energy, seller, info, offer);
            var accepted := AcceptedPiece(bid, RequestedEnergy(energy, bid.energy), bid.originalPrice);
            var left := r.value.residual;
            && m.events <= m'.events
            && Caught(c, owner, m, m').bids ==
               if bid.trader.name != owner then c.bids
               else Pop(c.bids + (if left.Some? then [accepted, left.value] else []), bid.id)
  {
    hide AcceptBid, RequestedEnergy, ResidualPiece, BidTradePrice, Pop, BookAfter, Valid;
    AcceptedBidEffect(cfg, m, bid, energy, seller, info, offer);
    var (m', r) := AcceptBid(cfg, m, bid, energy, seller, info, offer);
    var t, left, e := r.value, r.value.residual, RequestedEnergy(energy, bid.energy);
    var posted := BidPosted(if left.Some? then left.value else bid);
    var split := BidSplit(bid, AcceptedPiece(bid, e, bid.originalPrice), if left.Some? then left.value else bid);
    TradedBidNews(c, owner, split, BidTraded(t), posted);
    PieceTrader(bid, e, bid.originalPrice);
    assert c.bids + [] == c.bids;
    if left.Some? {
      assert m'.events == m.events + [split] + [BidTraded(t)] + [posted];
      assert m'.events[|m.events|..] == [split] + [BidTraded(t)] + [posted];
    } else {
      assert m'.events == m.events + [] + [BidTraded(t)] + [];
      assert m'.events[|m.events|..] == [] + [BidTraded(t)] + [];
    }
  }

  lemma AcceptedBidKeeps(cfg: Config, owner: string, m: Market, c: BidCache, bid: Order, energy: Option<real>,
                         seller: Trader, info: TradeInfo, offer: Option<Order>)
    requires Agree(owner, m, c) && IsMarketBid(m, bid)
    requires AcceptBid(cfg, m, bid, energy, seller, info, offer).1.Ok?
    ensures Keeps(owner, m, c, AcceptBid(cfg, m, bid, energy, seller, info, offer).0)
  {
    hide AcceptBid, RequestedEnergy, ResidualPiece, AcceptedPiece, BidTradePrice, Pop, Owned, BookAfter, Caught,
         OffersValid, BidsValid;
    ValidAfterAcceptBid(cfg, m, bid, energy, seller, info, offer);
    AcceptedBidEffect(cfg, m, bid, energy, seller, info, offer);
    RecordsAfterTrade(cfg, owner, m, c, bid, energy, seller, info, offer);
    var e := RequestedEnergy(energy, bid.energy);
    LeftTrader(bid, e, bid.originalPrice, m.nextId);
    PieceTrader(bid, e, bid.originalPrice);
    BidIdIsOld(m, bid);
    BooksAgree(owner, m.bids, bid, AcceptBid(cfg, m, bid, energy, seller, info, offer).1.value.residual,
               AcceptedPiece(bid, e, bid.originalPrice));
  }

  lemma PieceTrader(bid: Order, e: real, originalPrice: real)
    requires bid.energy > 0.0
    ensures AcceptedPiece(bid, e, originalPrice).id == bid.id
    ensures AcceptedPiece(bid, e, originalPrice).trader == bid.trader
  {
  }

  lemma BidIdIsOld(m: Market, bid: Order)
    requires Valid(m) && Find(m.bids, bid.id) == Some(bid)
    ensures Distinct(m.bids) && bid.id < m.nextId
  {
  }

  lemma LeftTrader(bid: Order, e: real, originalPrice: real, freshId: nat)
    requires bid.energy > 0.0
    ensures var left := Remainder(bid, e, originalPrice, freshId);
            left.Some? ==> left.value.trader == bid.trader && left.value.id == freshId
  {
  }

  // The market's list after the trade, and the records' after split and trade.
  lemma BooksAgree(owner: string, b: Book, bid: Order, left: Option<Order>, accepted: Order)
    requires Distinct(b) && Find(b, bid.id) == Some(bid) && accepted.id == bid.id
    requires left.Some? ==> left.value.trader == bid.trader && left.value.id != bid.id
    ensures bid.trader.name != owner ==> Owned(BookAfter(b, bid.id, left), owner) == Owned(b, owner)
    ensures bid.trader.name == owner ==>
              Owned(BookAfter(b, bid.id, left), owner) ==
              Pop(Owned(b, owner) + (if left.Some? then [accepted, left.value] else []), bid.id)
  {
    var rest := if left.Some? then [left.value] else [];
    OwnedAppend(Pop(b, bid.id), rest, owner);
    if left.Some? {
      OwnedSingle(left.value, owner);
      PopAppend(Owned(b, owner), [accepted, left.value], bid.id);
      assert [accepted, left.value][1..] == [left.value];
      PopAbsent([left.value], bid.id);
    } else {
      assert Owned(b, owner) + [] == Owned(b, owner);
    }
    OwnedPop(b, bid.id, owner);
    if bid.trader.name != owner {
      ForeignPop(b, bid.id, owner);
    }
  }

  // A failing acceptance leaves the records right if and only if the bid was not open or not the
  // owner's: it is lost to the market without a word.
  lemma FailedBidKeepsIff(cfg: Config, owner: string, m: Market, c: BidCache, bid: Order, energy: Option<real>,
                          seller: Trader, info: TradeInfo, offer: Option<Order>)
    requires Agree(owner, m, c) && IsMarketBid(m, bid)
    requires AcceptBid(cfg, m, bid, energy, seller, info, offer).1.Err?
    ensures Keeps(owner, m, c, AcceptBid(cfg, m, bid, energy, seller, info, offer).0) <==>
            Find(m.bids, bid.id).None? || bid.trader.name != owner
  {
    ValidAfterAcceptBid(cfg, m, bid, energy, seller, info, offer);
    BidAcceptedIff(cfg, m, bid, energy, seller, info, offer);
    BidNotFoundIff(cfg, m, bid, energy, seller, info, offer);
    var m' := AcceptBid(cfg, m, bid, energy, seller, info, offer).0;
    if Find(m.bids, bid.id).None? {
      assert m'.events[|m.events|..] == [];
    } else {
      AcceptBidBooks(cfg, m, bid, energy, seller, info, offer);
      FailedBidNews(cfg, m, bid, energy, seller, info, offer);
      hide AcceptBid, BidLegGoesThrough, RequestedEnergy, AcceptedPiece, ResidualPiece, SameLedger;
      var e := RequestedEnergy(energy, bid.energy);
      LostBidRecords(owner, m, m', c, bid, AcceptedPiece(bid, e, bid.originalPrice),
                     ResidualPiece(bid, e, bid.originalPrice, m.nextId));
    }
  }

  lemma FailedBidNews(cfg: Config, m: Market, bid: Order, energy: Option<real>, seller: Trader,
                      info: TradeInfo, offer: Option<Order>)
    requires Valid(m) && Find(m.bids, bid.id) == Some(bid)
    requires AcceptBid(cfg, m, bid, energy, seller, info, offer).1.Err?
    ensures var m' := AcceptBid(cfg, m, bid, energy, seller, info, offer).0;
            var e := RequestedEnergy(energy, bid.energy);
            var accepted := AcceptedPiece(bid, e, bid.originalPrice);
            var residual := ResidualPiece(bid, e, bid.originalPrice, m.nextId);
            && accepted.id == bid.id && accepted.trader == residual.trader == bid.trader && residual.id == m.nextId
            && ((m'.events == m.events && m'.bids == Pop(m.bids, bid.id)) ||
                (m'.events == m.events + [BidSplit(bid, accepted, residual)] &&
                 m'.bids == Pop(m.bids, bid.id) + [residual]))
  {
    hide Pop, BidTradePrice, RequestedEnergy;
  }

  lemma LostBidRecords(owner: string, m: Market, m': Market, c: BidCache, bid: Order, accepted: Order, residual: Order)
    requires Agree(owner, m, c) && Valid(m') && Find(m.bids, bid.id) == Some(bid) && Find(m'.bids, bid.id).None?
    requires accepted.id == bid.id && accepted.trader == residual.trader == bid.trader && residual.id != bid.id
    requires (m'.events == m.events && m'.bids == Pop(m.bids, bid.id)) ||
             (m'.events == m.events + [BidSplit(bid, accepted, residual)] &&
              m'.bids == Pop(m.bids, bid.id) + [residual])
    ensures Keeps(owner, m, c, m') <==> bid.trader.name != owner
  {
    var split := BidSplit(bid, accepted, residual);
    var left := if m'.events == m.events then None else Some(residual);
    if left.None? {
      assert m'.events[|m.events|..] == [];
    } else {
      OneEvent(c, owner, m, m', split);
    }
    assert m'.bids == BookAfter(m.bids, bid.id, left);
    BooksAgree(owner, m.bids, bid, left, accepted);
    if bid.trader.name == owner {
      var c' := Caught(c, owner, m, m');
      FindIn(m.bids, bid.id);
      OwnedIn(m.bids, owner, bid);
      assert bid in c'.bids;
      FindIn(m'.bids, bid.id);
      OwnedIn(m'.bids, owner, bid);
      assert bid !in Owned(m'.bids, owner);
    }
  }

  // ----- matching and other traders' actions -----

  lemma AgreeIsValid(owner: string, m: Market, c: BidCache)
    requires Agree(owner, m, c)
    ensures Valid(m)
  {
  }

  lemma AcceptOfferKeeps(cfg: Config, owner: string, m: Market, c: BidCache, id: nat, buyer: Trader,
                         energy: Option<real>, info: Option<TradeInfo>, bid: Option<Order>)
    requires Agree(owner, m, c)
    ensures Keeps(owner, m, c, AcceptOffer(cfg, m, id, buyer, energy, info, bid).0)
  {
    hide AcceptOffer, AboutBids;
    ValidAfterAcceptOffer(cfg, m, id, buyer, energy, info, bid);
    var news := NewsOfAcceptOffer(cfg, m, id, buyer, energy, info, bid);
    BesidesBidsKeeps(owner, m, c, AcceptOffer(cfg, m, id, buyer, energy, info, bid).0, news);
  }

  // The mishap is the owner's: a bid of its own was lost.
  predicate HurtsOwner(x: Mishap, owner: string) {
    x.LostBid? && x.bid.trader.name == owner
  }

  lemma AcceptBidKeepsIff(cfg: Config, owner: string, m: Market, c: BidCache, bid: Order, energy: Option<real>,
                          seller: Trader, info: TradeInfo, offer: Option<Order>)
    requires Agree(owner, m, c) && Valid(m) && IsMarketBid(m, bid)
    ensures KeepsUnless(owner, m, c, AcceptBid(cfg, m, bid, energy, seller, info, offer).0,
                        HurtsOwner(BidMishap(cfg, m, bid, energy, info), owner))
  {
    hide AcceptBid, Agree, BidLegGoesThrough, SameLedger, RequestedEnergy;
    BidAcceptedIff(cfg, m, bid, energy, seller, info, offer);
    if AcceptBid(cfg, m, bid, energy, seller, info, offer).1.Ok? {
      AcceptedBidKeeps(cfg, owner, m, c, bid, energy, seller, info, offer);
    } else {
      var _ := FailedAcceptBidNews(cfg, m, bid, energy, seller, info, offer);
      FailedBidKeepsIff(cfg, owner, m, c, bid, energy, seller, info, offer);
    }
  }

  lemma PairKeepsIff(cfg: Config, owner: string, m: Market, c: BidCache, bid: Order, offer: Order, info: TradeInfo,
                     energy: real)
    requires Agree(owner, m, c) && Valid(m)
    requires Find(m.offers, offer.id) == Some(offer) && Find(m.bids, bid.id) == Some(bid)
    ensures KeepsUnless(owner, m, c, AcceptPair(cfg, m, bid, offer, info, energy).0,
                        HurtsOwner(PairMishap(cfg, m, bid, offer, info, energy), owner))
  {
    hide AcceptOffer, AcceptBid, Agree, Valid, BidLegGoesThrough, OfferLegGoesThrough, StrandsResidual;
    var m1 := AcceptOffer(cfg, m, offer.id, bid.trader, Some(energy), Some(info), Some(bid)).0;
    OfferAcceptedIff(cfg, m, offer.id, bid.trader, Some(energy), Some(info), Some(bid));
    AcceptOfferKeeps(cfg, owner, m, c, offer.id, bid.trader, Some(energy), Some(info), Some(bid));
    ValidAfterAcceptOffer(cfg, m, offer.id, bid.trader, Some(energy), Some(info), Some(bid));
    var _ := NewsOfAcceptOffer(cfg, m, offer.id, bid.trader, Some(energy), Some(info), Some(bid));
    if AcceptOffer(cfg, m, offer.id, bid.trader, Some(energy), Some(info), Some(bid)).1.Ok? {
      AcceptBidKeepsIff(cfg, owner, m1, Caught(c, owner, m, m1), bid, Some(energy), offer.trader, info, Some(offer));
      KeepsBoth(owner, m, c, m1, AcceptBid(cfg, m1, bid, Some(energy), offer.trader, info, Some(offer)).0,
                HurtsOwner(PairMishap(cfg, m, bid, offer, info, energy), owner));
    }
  }

  lemma MatchOneKeepsIff(cfg: Config, owner: string, m: Market, c: BidCache, rec: Recommendation)
    requires Agree(owner, m, c) && Valid(m) && !MatchOne(cfg, m, rec).Skipped?
    ensures KeepsUnless(owner, m, c, MatchOne(cfg, m, rec).market, HurtsOwner(MatchOneMishap(cfg, m, rec), owner))
  {
    hide AcceptPair, PairMishap, Agree, Valid;
    ResolvedIsOpen(m, rec.offerId, rec.offerOrigin, rec.bidId, rec.bidOrigin);
    var offer := Resolve(m.offers, rec.offerId, rec.offerOrigin);
    var bid := Resolve(m.bids, rec.bidId, rec.bidOrigin);
    assert m.events[|m.events|..] == [];
    if offer.Some? && bid.Some? && ClearingInfo(cfg, offer.value, bid.value, rec.tradeRate).Some? {
      PairKeepsIff(cfg, owner, m, c, bid.value, offer.value,
                   ClearingInfo(cfg, offer.value, bid.value, rec.tradeRate).value,
                   Min(Min(rec.selectedEnergy, offer.value.energy), bid.value.energy));
    }
  }

  // A whole batch keeps the records right if and only if it loses no bid of the owner's, however it
  // ends.
  lemma {:induction false} MatchAllKeepsIff(cfg: Config, owner: string, m: Market, c: BidCache,
                                            recs: seq<Recommendation>, traded: bool)
    requires Agree(owner, m, c) && Valid(m)
    ensures KeepsUnless(owner, m, c, MatchAll(cfg, m, recs, traded).0,
                        HurtsOwner(MatchAllMishap(cfg, m, recs), owner))
    decreases |recs|
  {
    hide MatchOne, MatchOneMishap, Agree, Valid;
    assert m.events[|m.events|..] == [];
    if recs != [] {
      if !MatchOne(cfg, m, recs[0]).Skipped? {
        MatchOneKeepsIff(cfg, owner, m, c, recs[0]);
      }
      match MatchOne(cfg, m, recs[0])
      case Raised(_, _) =>
      case Skipped => MatchAllKeepsIff(cfg, owner, m, c, recs[1..], traded);
      case Traded(m1, ot, bt) =>
        if MatchOneMishap(cfg, m, recs[0]) != NoMishap {
          MatchOneMishapIsRaised(cfg, m, recs[0]);
        }
        var rest := Rewrite(recs[1..], ot, bt);
        ValidAfterMatchOne(cfg, m, recs[0]);
        MatchAllKeepsIff(cfg, owner, m1, Caught(c, owner, m, m1), rest, true);
        KeepsBoth(owner, m, c, m1, MatchAll(cfg, m1, rest, true).0, HurtsOwner(MatchAllMishap(cfg, m1, rest), owner));
    }
  }

  lemma FlagKeeps(owner: string, m: Market, c: BidCache)
    requires Agree(owner, m, c)
    ensures Keeps(owner, m, c, m.(noNewOrder := true))
  {
    assert m.events[|m.events|..] == [];
  }

  lemma {:induction false} LoopKeepsIff(cfg: Config, owner: string, m: Market, c: BidCache, matcher: Matcher)
    requires Agree(owner, m, c) && Valid(m)
    ensures KeepsUnless(owner, m, c, MatchUntilDone(cfg, m, matcher).0, HurtsOwner(LoopMishap(cfg, m, matcher), owner))
    decreases Units(m)
  {
    hide MatchAll, MatchAllMishap, Agree, Valid;
    var pairs := matcher(m.offers, m.bids);
    if pairs == [] {
      FlagKeeps(owner, m, c);
    } else {
      var (m1, r) := MatchAll(cfg, m, pairs, false);
      MatchAllKeepsIff(cfg, owner, m, c, pairs, false);
      MatchAllMishapIsRaised(cfg, m, pairs, false);
      ValidAfterMatchAll(cfg, m, pairs, false);
      var c1 := Caught(c, owner, m, m1);
      if r == Ok(false) {
        FlagKeeps(owner, m1, c1);
        KeepsBoth(owner, m, c, m1, m1.(noNewOrder := true), false);
      } else if r == Ok(true) {
        RoundDropsUnits(cfg, m, pairs);
        LoopKeepsIff(cfg, owner, m1, c1, matcher);
        KeepsBoth(owner, m, c, m1, MatchUntilDone(cfg, m1, matcher).0,
                  HurtsOwner(LoopMishap(cfg, m1, matcher), owner));
      }
    }
  }

  lemma DeletionKeeps(owner: string, m: Market, c: BidCache, id: nat)
    requires Agree(owner, m, c)
    ensures Keeps(owner, m, c, DeleteBid(m, id).0)
    // The handler finds nothing left to delete in the market.
    ensures Find(DeleteBid(m, id).0.bids, id).None?
    ensures Pop(Caught(c, owner, m, DeleteBid(m, id).0).bids, id) == Pop(c.bids, id)
  {
    var (m', r) := DeleteBid(m, id);
    ValidAfterDeleting(m, id);
    FoundAndGone(m.bids, id);
    FoundAndGone(c.bids, id);
    if r.Err? {
      assert m'.events[|m.events|..] == [];
    } else {
      OneEvent(c, owner, m, m', BidDeleted(r.value));
      OwnedPop(m.bids, id, owner);
      if r.value.trader.name != owner {
        ForeignPop(m.bids, id, owner);
      }
    }
  }

  lemma ForeignPostKeeps(cfg: Config, owner: string, m: Market, c: BidCache, price: real, energy: real, buyer: Trader,
                         originalPrice: Option<real>, timeSlot: int)
    requires Agree(owner, m, c)
    ensures var (m', r) := PostBid(cfg, m, price, energy, buyer, None, originalPrice, true, true, timeSlot);
            && (r.Err? ==> m' == m)
            && (r.Err? || buyer.name != owner ==> Keeps(owner, m, c, m'))
            && (r.Ok? && buyer.name == owner ==> Agree(owner, m', c.(bids := c.bids + [r.value])))
  {
    hide BidPriceWithFee, Owned, Put, OffersValid, BidsValid;
    var (m', r) := PostBid(cfg, m, price, energy, buyer, None, originalPrice, true, true, timeSlot);
    ValidAfterPostBid(cfg, m, price, energy, buyer, originalPrice, true, true, timeSlot);
    if r.Err? {
      assert m'.events[|m.events|..] == [];
    } else {
      FreshBid(m.bids, m.nextId);
      PutFresh(m.bids, r.value);
      OneEvent(c, owner, m, m', BidPosted(r.value));
      OwnedAppend(m.bids, [r.value], owner);
      OwnedSingle(r.value, owner);
      assert Owned(m.bids, owner) + [] == Owned(m.bids, owner);
    }
  }

  // Somebody else's action: bids under the owner's name are only posted by its strategy.
  ghost predicate Foreign(owner: string, m: Market, a: Action) {
    && (a.PostsBid? ==> a.trader.name != owner)
    && (a.AcceptsBid? ==> IsMarketBid(m, a.bid))
  }

  // It keeps the records right if and only if it loses no bid of the owner's, whatever it raises.
  lemma StepKeepsIff(cfg: Config, matcher: Matcher, owner: string, m: Market, c: BidCache, a: Action)
    requires Agree(owner, m, c) && Valid(m) && Foreign(owner, m, a)
    ensures KeepsUnless(owner, m, c, Step(cfg, matcher, m, a).0, HurtsOwner(StepMishap(cfg, matcher, m, a), owner))
  {
    hide AcceptOffer, AcceptBid, MatchAll, MatchUntilDone, Agree, Valid, PostBid, DeleteBid, OfferPriceWithFee,
         IsMarketBid, OfferMishap, BidMishap, MatchAllMishap, LoopMishap;
    var m' := Step(cfg, matcher, m, a).0;
    ValidAfterStep(cfg, matcher, m, a);
    match a
    case PostsOffer(_, _, _, _, _) =>
      BesidesBidsKeeps(owner, m, c, m', if m'.events == m.events then [] else [m'.events[|m.events|]]);
    case PostsBid(price, energy, trader, original, slot) =>
      ForeignPostKeeps(cfg, owner, m, c, price, energy, trader, original, slot);
    case DeletesOffer(_) =>
      BesidesBidsKeeps(owner, m, c, m', if m'.events == m.events then [] else [m'.events[|m.events|]]);
    case DeletesBid(id) => DeletionKeeps(owner, m, c, id);
    case AcceptsOffer(id, trader, energy, info) =>
      AcceptOfferKeeps(cfg, owner, m, c, id, trader, energy, info, None);
      OfferMishapLosesNothing(cfg, m, id, energy, info);
    case AcceptsBid(bid, energy, trader, info) => AcceptBidKeepsIff(cfg, owner, m, c, bid, energy, trader, info, None);
    case Matches(recs) => MatchAllKeepsIff(cfg, owner, m, c, recs, false);
    case Ticks =>
      if m.noNewOrder {
        BesidesBidsKeeps(owner, m, c, m', []);
      } else {
        LoopKeepsIff(cfg, owner, m, c, matcher);
      }
    case AsksAverage => BesidesBidsKeeps(owner, m, c, m', []);
  }

  lemma OfferMishapLosesNothing(cfg: Config, m: Market, id: nat, energy: Option<real>, info: Option<TradeInfo>)
    ensures !OfferMishap(cfg, m, id, energy, info).LostBid?
  {
  }
}
