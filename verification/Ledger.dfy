/** The market's accumulators are sums over the trades booked so far, whatever happened in between. What
    was booked is told from the log of events: trades can leave the list, as they do in a future market,
    but not the log. */
module Ledger {
  import opened Numeric
  import opened Books
  import opened Fees
  import opened MarketState
  import opened Acceptance
  import opened TwoSided
  import opened MatchingEngine
  import opened Runs

  function Sum(f: Trade -> real, trades: seq<Trade>): real {
    if trades == [] then 0.0 else Sum(f, trades[..|trades| - 1]) + f(trades[|trades| - 1])
  }

  // The energy of the order a trade was booked with.
  function BookedEnergy(t: Trade): real {
    if t.offer.Some? then t.offer.value.energy
    else if t.bid.Some? then t.bid.value.energy
    else 0.0
  }

  // What a trade moves towards the trader with the given name: sold counts up, bought down.
  function EnergyMoved(name: string, t: Trade): real {
    (if t.seller.name == name then BookedEnergy(t) else 0.0) - (if t.buyer.name == name then BookedEnergy(t) else 0.0)
  }

  function EnergyOf(m: Market, name: string): real {
    if name in m.energyOf then m.energyOf[name] else 0.0
  }

  // A trade of an offer is booked; of the trades of bids only those made without an offer are, because
  // otherwise the offer's was.
  function BookedBy(e: Event): seq<Trade> {
    match e
    case OfferTraded(t) => [t]
    case BidTraded(t) => if t.offer.None? then [t] else []
    case _ => []
  }

  function BookedIn(events: seq<Event>): seq<Trade> {
    if events == [] then [] else BookedIn(events[..|events| - 1]) + BookedBy(events[|events| - 1])
  }

  ghost predicate Accounts(m: Market, booked: seq<Trade>) {
    && m.marketFee == Sum((t: Trade) => t.feePrice, booked)
    && m.tradedPrice == Sum((t: Trade) => t.tradePrice, booked)
    && m.tradedEnergy == Sum((t: Trade) => t.tradedEnergy, booked)
    && (forall name :: EnergyOf(m, name) == Sum((t: Trade) => EnergyMoved(name, t), booked))
    && SumOfValues(m.energyOf) == 0.0
    && (m.averagePrice.Some? ==> m.averagePrice.value == AverageTradePrice(m))
    && (forall t :: t in booked ==> t.tradedEnergy > 0.0)
  }

  ghost predicate LedgerOk(m: Market) {
    Accounts(m, BookedIn(m.events))
  }

  // The trades an operation has put on the list are those it has booked.
  ghost predicate BooksTrades(m: Market, m': Market) {
    && BookedIn(m.events) <= BookedIn(m'.events)
    && m'.trades == m.trades + BookedIn(m'.events)[|BookedIn(m.events)|..]
  }

  ghost predicate Progress(m: Market, m': Market) {
    LedgerOk(m') && BooksTrades(m, m')
  }

  lemma Progressed(m: Market, m1: Market, m2: Market)
    requires BooksTrades(m, m1) && Progress(m1, m2)
    ensures Progress(m, m2)
  {
    var a, b, c := BookedIn(m.events), BookedIn(m1.events), BookedIn(m2.events);
    assert c[|a|..] == b[|a|..] + c[|b|..];
    Regroup(m.trades, b[|a|..], c[|b|..]);
  }

  lemma BookedMore(events: seq<Event>, e: Event)
    ensures BookedIn(events + [e]) == BookedIn(events) + BookedBy(e)
  {
    assert (events + [e])[..|events|] == events;
  }

  // Events without a booking.
  lemma {:induction false} BookedNone(events: seq<Event>, news: seq<Event>)
    requires forall e :: e in news ==> BookedBy(e) == []
    ensures BookedIn(events + news) == BookedIn(events)
    decreases |news|
  {
    if news == [] {
      assert events + news == events;
    } else {
      var before, last := news[..|news| - 1], news[|news| - 1];
      BookedNone(events, before);
      assert events + news == (events + before) + [last];
      BookedMore(events + before, last);
      assert BookedIn(events + before) + [] == BookedIn(events + before);
    }
  }

  // ----- the values of a dictionary -----

  ghost function SumOfValues(d: map<string, real>): real
    decreases |d|
  {
    if d == map[] then 0.0
    else
      var k :| k in d;
      d[k] + SumOfValues(d - {k})
  }

  lemma {:induction false} SumOfValuesAt(d: map<string, real>, k: string)
    requires k in d
    ensures SumOfValues(d) == d[k] + SumOfValues(d - {k})
    decreases |d|
  {
    var j :| j in d && SumOfValues(d) == d[j] + SumOfValues(d - {j});
    if j != k {
      SumOfValuesAt(d - {j}, k);
      SumOfValuesAt(d - {k}, j);
      assert d - {j} - {k} == d - {k} - {j};
    }
  }

  lemma AddKeepsTrack(d: map<string, real>, key: string, x: real)
    ensures SumOfValues(AddOrCreate(d, key, x)) == SumOfValues(d) + x
  {
    var d' := AddOrCreate(d, key, x);
    SumOfValuesAt(d', key);
    if key in d {
      SumOfValuesAt(d, key);
      assert d' - {key} == d - {key};
    } else {
      assert d' - {key} == d;
    }
  }

  // ----- booking -----

  lemma BookingKeepsAccounts(m: Market, booked: seq<Trade>, t: Trade, order: Order)
    requires Accounts(m, booked) && order.energy == BookedEnergy(t) && t.tradedEnergy > 0.0
    ensures Accounts(Booked(m, t, order), booked + [t])
  {
    var m', more := Booked(m, t, order), booked + [t];
    assert more[..|booked|] == booked;
    forall name ensures EnergyOf(m', name) == Sum((t: Trade) => EnergyMoved(name, t), more) {
      assert EnergyOf(m, name) == Sum((t: Trade) => EnergyMoved(name, t), booked);
    }
    AddKeepsTrack(m.energyOf, t.seller.name, order.energy);
    AddKeepsTrack(AddOrCreate(m.energyOf, t.seller.name, order.energy), t.buyer.name, -order.energy);
  }

  ghost predicate SameFigures(m: Market, m': Market) {
    && m'.marketFee == m.marketFee && m'.tradedPrice == m.tradedPrice && m'.tradedEnergy == m.tradedEnergy
    && m'.energyOf == m.energyOf && m'.averagePrice == m.averagePrice
  }

  lemma SameFiguresSameAccounts(m: Market, m': Market, booked: seq<Trade>)
    requires Accounts(m, booked) && SameFigures(m, m')
    ensures Accounts(m', booked)
  {
    forall name ensures EnergyOf(m', name) == Sum((t: Trade) => EnergyMoved(name, t), booked) {
      assert EnergyOf(m, name) == Sum((t: Trade) => EnergyMoved(name, t), booked);
    }
  }

  // Nothing is booked.
  ghost predicate NothingBooked(m: Market, m': Market) {
    SameFigures(m, m') && m'.trades == m.trades && BookedIn(m'.events) == BookedIn(m.events)
  }

  // One trade is.
  ghost predicate OneBooked(m: Market, m': Market, t: Trade, order: Order) {
    && SameFigures(Booked(m, t, order), m') && m'.trades == m.trades + [t]
    && BookedIn(m'.events) == BookedIn(m.events) + [t]
    && order.energy == BookedEnergy(t) && t.tradedEnergy > 0.0
  }

  lemma ProgressWithout(m: Market, m': Market)
    requires LedgerOk(m) && NothingBooked(m, m')
    ensures Progress(m, m')
  {
    SameFiguresSameAccounts(m, m', BookedIn(m.events));
    assert m.trades + [] == m.trades;
  }

  lemma ProgressByOne(m: Market, m': Market, t: Trade, order: Order)
    requires LedgerOk(m) && OneBooked(m, m', t, order)
    ensures Progress(m, m')
  {
    hide Accounts;
    BookingKeepsAccounts(m, BookedIn(m.events), t, order);
    SameFiguresSameAccounts(Booked(m, t, order), m', BookedIn(m.events) + [t]);
  }

  // ----- operations -----

  lemma OfferBooking(cfg: Config, m: Market, id: nat, buyer: Trader, energy: Option<real>,
                     info: Option<TradeInfo>, bid: Option<Order>)
    requires Valid(m)
    ensures var (m', r) := AcceptOffer(cfg, m, id, buyer, energy, info, bid);
            && (r.Err? ==> SameFigures(m, m') && m'.trades == m.trades)
            && (r.Ok? ==>
                  && r.value.offer.Some? && r.value.tradedEnergy > 0.0
                  && SameFigures(Booked(m, r.value, r.value.offer.value), m') && m'.trades == m.trades + [r.value])
  {
    hide Pop, OfferTradePrice, AcceptedPiece, ResidualPiece, RequestedEnergy, AddOrCreate;
  }

  // What accept_offer announces: a split at most, and the trade if there is one.
  lemma OfferNews(cfg: Config, m: Market, id: nat, buyer: Trader, energy: Option<real>,
                  info: Option<TradeInfo>, bid: Option<Order>)
    requires Valid(m)
    ensures var (m', r) := AcceptOffer(cfg, m, id, buyer, energy, info, bid);
            BookedIn(m'.events) == BookedIn(m.events) + if r.Ok? then [r.value] else []
  {
    var (m', r) := AcceptOffer(cfg, m, id, buyer, energy, info, bid);
    var split := SplitNews(cfg, m, id, buyer, energy, info, bid);
    hide AcceptOffer;
    BookedNone(m.events, split);
    if r.Ok? {
      BookedMore(m.events + split, OfferTraded(r.value));
    }
    assert BookedIn(m.events) + [] == BookedIn(m.events);
  }

  lemma SplitNews(cfg: Config, m: Market, id: nat, buyer: Trader, energy: Option<real>,
                  info: Option<TradeInfo>, bid: Option<Order>) returns (split: seq<Event>)
    requires Valid(m)
    ensures var (m', r) := AcceptOffer(cfg, m, id, buyer, energy, info, bid);
            && (forall e :: e in split ==> BookedBy(e) == [])
            && m'.events == m.events + split + if r.Ok? then [OfferTraded(r.value)] else []
  {
    hide AcceptOffer, AcceptedPiece, ResidualPiece, RequestedEnergy, OfferTradePrice, BookAfter, BookedIn;
    var (m', r) := AcceptOffer(cfg, m, id, buyer, energy, info, bid);
    if r.Ok? {
      AcceptedOfferEffect(cfg, m, id, buyer, energy, info, bid);
      var o := Find(m.offers, id).value;
      split := if r.value.residual.None? then []
               else [OfferSplit(o, AcceptedPiece(o, RequestedEnergy(energy, o.energy), OriginalOfferPrice(o)),
                                r.value.residual.value)];
    } else {
      split := NewsOfRefusal(cfg, m, id, buyer, energy, info, bid);
    }
  }

  lemma NewsOfRefusal(cfg: Config, m: Market, id: nat, buyer: Trader, energy: Option<real>,
                      info: Option<TradeInfo>, bid: Option<Order>) returns (split: seq<Event>)
    requires Valid(m) && AcceptOffer(cfg, m, id, buyer, energy, info, bid).1.Err?
    ensures forall e :: e in split ==> BookedBy(e) == []
    ensures AcceptOffer(cfg, m, id, buyer, energy, info, bid).0.events == m.events + split + []
  {
    hide Pop, OfferTradePrice, AcceptedPiece, ResidualPiece, RequestedEnergy, AddOrCreate, BookedIn;
    split := AcceptOffer(cfg, m, id, buyer, energy, info, bid).0.events[|m.events|..];
    assert m.events + [] == m.events;
  }

  lemma BidBooking(cfg: Config, m: Market, bid: Order, energy: Option<real>, seller: Trader,
                   info: TradeInfo, offer: Option<Order>)
    requires Valid(m)
    ensures var (m', r) := AcceptBid(cfg, m, bid, energy, seller, info, offer);
            && (r.Err? || offer.Some? ==> SameFigures(m, m') && m'.trades == m.trades)
            && (r.Ok? ==> r.value.offer == offer && r.value.bid.Some? && r.value.tradedEnergy > 0.0)
            && (r.Ok? && offer.None? ==>
                  SameFigures(Booked(m, r.value, r.value.bid.value), m') && m'.trades == m.trades + [r.value])
  {
    hide Pop, BidTradePrice, AcceptedPiece, ResidualPiece, RequestedEnergy, AddOrCreate;
  }

  lemma BidNews(cfg: Config, m: Market, bid: Order, energy: Option<real>, seller: Trader,
                info: TradeInfo, offer: Option<Order>)
    requires Valid(m)
    ensures var (m', r) := AcceptBid(cfg, m, bid, energy, seller, info, offer);
            BookedIn(m'.events) == BookedIn(m.events) + if r.Ok? && offer.None? then [r.value] else []
  {
    var (m', r) := AcceptBid(cfg, m, bid, energy, seller, info, offer);
    var split, posted := NewsAroundTrade(cfg, m, bid, energy, seller, info, offer);
    hide AcceptBid;
    BookedNone(m.events, split);
    if r.Ok? {
      var traded := m.events + split + [BidTraded(r.value)];
      BookedMore(m.events + split, BidTraded(r.value));
      BookedNone(traded, posted);
    }
    assert BookedIn(m.events) + [] == BookedIn(m.events);
  }

  lemma NewsAroundTrade(cfg: Config, m: Market, bid: Order, energy: Option<real>, seller: Trader,
                        info: TradeInfo, offer: Option<Order>) returns (split: seq<Event>, posted: seq<Event>)
    requires Valid(m)
    ensures var (m', r) := AcceptBid(cfg, m, bid, energy, seller, info, offer);
            && (forall e :: e in split || e in posted ==> BookedBy(e) == [])
            && (r.Ok? ==> r.value.offer == offer && m'.events == m.events + split + [BidTraded(r.value)] + posted)
            && (r.Err? ==> m'.events == m.events + split)
  {
    hide Pop, BidTradePrice, AcceptedPiece, ResidualPiece, RequestedEnergy, AddOrCreate, BookedIn;
    var (m', r) := AcceptBid(cfg, m, bid, energy, seller, info, offer);
    if r.Err? {
      split, posted := m'.events[|m.events|..], [];
    } else if r.value.residual.Some? {
      split, posted := [m'.events[|m.events|]], [m'.events[|m'.events| - 1]];
    } else {
      split, posted := [], [];
    }
    assert m.events + [] == m.events;
    if r.Ok? {
      assert m.events + [] + [BidTraded(r.value)] + [] == m.events + [BidTraded(r.value)];
    }
  }

  lemma AcceptOfferProgresses(cfg: Config, m: Market, id: nat, buyer: Trader, energy: Option<real>,
                              info: Option<TradeInfo>, bid: Option<Order>)
    requires Valid(m) && LedgerOk(m)
    ensures Progress(m, AcceptOffer(cfg, m, id, buyer, energy, info, bid).0)
  {
    hide AcceptOffer, LedgerOk, Booked, SameFigures, BookedIn;
    var (m', r) := AcceptOffer(cfg, m, id, buyer, energy, info, bid);
    OfferBooking(cfg, m, id, buyer, energy, info, bid);
    OfferNews(cfg, m, id, buyer, energy, info, bid);
    if r.Ok? {
      ProgressByOne(m, m', r.value, r.value.offer.value);
    } else {
      assert BookedIn(m.events) + [] == BookedIn(m.events);
      ProgressWithout(m, m');
    }
  }

  lemma AcceptBidProgresses(cfg: Config, m: Market, bid: Order, energy: Option<real>, seller: Trader,
                            info: TradeInfo, offer: Option<Order>)
    requires Valid(m) && LedgerOk(m)
    ensures Progress(m, AcceptBid(cfg, m, bid, energy, seller, info, offer).0)
  {
    hide AcceptBid, LedgerOk, Booked, SameFigures, BookedIn;
    var (m', r) := AcceptBid(cfg, m, bid, energy, seller, info, offer);
    BidBooking(cfg, m, bid, energy, seller, info, offer);
    BidNews(cfg, m, bid, energy, seller, info, offer);
    if r.Ok? && offer.None? {
      ProgressByOne(m, m', r.value, r.value.bid.value);
    } else {
      assert BookedIn(m.events) + [] == BookedIn(m.events);
      ProgressWithout(m, m');
    }
  }

  lemma ProgressIsLedger(m: Market, m': Market)
    requires Progress(m, m')
    ensures LedgerOk(m') && BooksTrades(m, m')
  {
  }

  lemma PairProgresses(cfg: Config, m: Market, bid: Order, offer: Order, info: TradeInfo, energy: real)
    requires Valid(m) && LedgerOk(m)
    ensures Progress(m, AcceptPair(cfg, m, bid, offer, info, energy).0)
  {
    hide AcceptOffer, AcceptBid, Progress, LedgerOk, BooksTrades;
    AcceptOfferProgresses(cfg, m, offer.id, bid.trader, Some(energy), Some(info), Some(bid));
    ValidAfterAcceptOffer(cfg, m, offer.id, bid.trader, Some(energy), Some(info), Some(bid));
    var m1 := AcceptOffer(cfg, m, offer.id, bid.trader, Some(energy), Some(info), Some(bid)).0;
    ProgressIsLedger(m, m1);
    AcceptBidProgresses(cfg, m1, bid, Some(energy), offer.trader, info, Some(offer));
    Progressed(m, m1, AcceptBid(cfg, m1, bid, Some(energy), offer.trader, info, Some(offer)).0);
  }

  lemma MatchOneProgresses(cfg: Config, m: Market, rec: Recommendation)
    requires Valid(m) && LedgerOk(m) && !MatchOne(cfg, m, rec).Skipped?
    ensures Progress(m, MatchOne(cfg, m, rec).market)
  {
    hide AcceptPair, Progress, LedgerOk;
    ResolvedIsOpen(m, rec.offerId, rec.offerOrigin, rec.bidId, rec.bidOrigin);
    NoProgress(m);
    var offer := Resolve(m.offers, rec.offerId, rec.offerOrigin);
    var bid := Resolve(m.bids, rec.bidId, rec.bidOrigin);
    if offer.Some? && bid.Some? && ClearingInfo(cfg, offer.value, bid.value, rec.tradeRate).Some? {
      PairProgresses(cfg, m, bid.value, offer.value, ClearingInfo(cfg, offer.value, bid.value, rec.tradeRate).value,
                     Min(Min(rec.selectedEnergy, offer.value.energy), bid.value.energy));
    }
  }

  lemma NoProgress(m: Market)
    requires LedgerOk(m)
    ensures Progress(m, m) && Progress(m, m.(noNewOrder := true))
  {
    ProgressWithout(m, m);
    ProgressWithout(m, m.(noNewOrder := true));
  }

  lemma {:induction false} MatchAllProgresses(cfg: Config, m: Market, recs: seq<Recommendation>, traded: bool)
    requires Valid(m) && LedgerOk(m)
    ensures Progress(m, MatchAll(cfg, m, recs, traded).0)
    decreases |recs|
  {
    hide MatchOne, LedgerOk, Progress, BooksTrades;
    NoProgress(m);
    if recs != [] {
      if !MatchOne(cfg, m, recs[0]).Skipped? {
        MatchOneProgresses(cfg, m, recs[0]);
        ValidAfterMatchOne(cfg, m, recs[0]);
      }
      match MatchOne(cfg, m, recs[0])
      case Raised(_, _) =>
      case Skipped => MatchAllProgresses(cfg, m, recs[1..], traded);
      case Traded(m1, ot, bt) =>
        ProgressIsLedger(m, m1);
        MatchAllProgresses(cfg, m1, Rewrite(recs[1..], ot, bt), true);
        Progressed(m, m1, MatchAll(cfg, m1, Rewrite(recs[1..], ot, bt), true).0);
    }
  }

  lemma {:induction false} LoopProgresses(cfg: Config, m: Market, matcher: Matcher)
    requires Valid(m) && LedgerOk(m)
    ensures Progress(m, MatchUntilDone(cfg, m, matcher).0)
    decreases Units(m)
  {
    hide MatchAll, LedgerOk, Progress, BooksTrades;
    var pairs := matcher(m.offers, m.bids);
    NoProgress(m);
    if pairs != [] {
      var (m1, r) := MatchAll(cfg, m, pairs, false);
      MatchAllProgresses(cfg, m, pairs, false);
      ValidAfterMatchAll(cfg, m, pairs, false);
      ProgressIsLedger(m, m1);
      NoProgress(m1);
      if r == Ok(true) {
        RoundDropsUnits(cfg, m, pairs);
        LoopProgresses(cfg, m1, matcher);
      }
      if r.Ok? {
        Progressed(m, m1, MatchUntilDone(cfg, m, matcher).0);
      }
    }
  }

  // Postings, deletions and queries book nothing.
  lemma PlainEventBooksNothing(m: Market, m': Market)
    requires SameFigures(m, m') && m'.trades == m.trades
    requires m'.events == m.events || exists e :: BookedBy(e) == [] && m'.events == m.events + [e]
    ensures NothingBooked(m, m')
  {
    if m'.events != m.events {
      var e :| BookedBy(e) == [] && m'.events == m.events + [e];
      BookedMore(m.events, e);
      assert BookedIn(m.events) + [] == BookedIn(m.events);
    }
  }

  lemma StepProgresses(cfg: Config, matcher: Matcher, m: Market, a: Action)
    requires Valid(m) && LedgerOk(m)
    ensures Progress(m, Step(cfg, matcher, m, a).0)
  {
    hide AcceptOffer, AcceptBid, MatchAll, MatchUntilDone, LedgerOk, Progress, BookedIn, OfferPriceWithFee,
         BidPriceWithFee;
    var m' := Step(cfg, matcher, m, a).0;
    if a.PostsOffer? || a.PostsBid? || a.DeletesOffer? || a.DeletesBid? {
      assert m'.events == m.events || m'.events == m.events + [m'.events[|m.events|]];
      PlainEventBooksNothing(m, m');
      ProgressWithout(m, m');
    }
    match a
    case AcceptsOffer(id, trader, energy, info) => AcceptOfferProgresses(cfg, m, id, trader, energy, info, None);
    case AcceptsBid(bid, energy, trader, info) => AcceptBidProgresses(cfg, m, bid, energy, trader, info, None);
    case Matches(recs) => MatchAllProgresses(cfg, m, recs, false);
    case Ticks =>
      NoProgress(m);
      if !m.noNewOrder {
        LoopProgresses(cfg, m, matcher);
      }
    case AsksAverage => AveragingProgresses(m);
    case _ =>
  }

  lemma AveragingProgresses(m: Market)
    requires LedgerOk(m)
    ensures Progress(m, m) && Progress(m, m.(averagePrice := Some(AverageTradePrice(m))))
  {
    var m', booked := m.(averagePrice := Some(AverageTradePrice(m))), BookedIn(m.events);
    forall name ensures EnergyOf(m', name) == Sum((t: Trade) => EnergyMoved(name, t), booked) {
      assert EnergyOf(m, name) == Sum((t: Trade) => EnergyMoved(name, t), booked);
    }
    assert m.trades + [] == m.trades;
  }

  lemma {:induction false} RunProgresses(cfg: Config, matcher: Matcher, m: Market, actions: seq<Action>)
    requires Valid(m) && LedgerOk(m)
    ensures Progress(m, Run(cfg, matcher, m, actions))
    decreases |actions|
  {
    hide Step, LedgerOk, Progress, BooksTrades;
    NoProgress(m);
    if actions != [] {
      var m1 := Step(cfg, matcher, m, actions[0]).0;
      ValidAfterStep(cfg, matcher, m, actions[0]);
      StepProgresses(cfg, matcher, m, actions[0]);
      ProgressIsLedger(m, m1);
      RunProgresses(cfg, matcher, m1, actions[1..]);
      Progressed(m, m1, Run(cfg, matcher, m1, actions[1..]));
    }
  }

  lemma EmptyLedger()
    ensures Valid(EMPTY_MARKET) && LedgerOk(EMPTY_MARKET)
  {
  }

  // In every reachable state the trades are those that were booked, in order; fees, prices and energies
  // are the sums over them, each trader's energy is what they moved towards it, these energies cancel
  // out, and a cached average is the average of now.
  lemma LedgerInEveryRun(cfg: Config, matcher: Matcher, actions: seq<Action>)
    ensures Valid(EMPTY_MARKET)
    ensures var m := Run(cfg, matcher, EMPTY_MARKET, actions);
            m.trades == BookedIn(m.events) && Accounts(m, m.trades)
  {
    hide Run, Accounts;
    EmptyLedger();
    RunProgresses(cfg, matcher, EMPTY_MARKET, actions);
  }

  // The average is a multiple of a ten-thousandth, and off the quotient of price and energy by no more than
  // half of one.
  lemma AverageIsRounded(m: Market)
    requires m.tradedEnergy > 0.0
    ensures var average := AverageTradePrice(m);
            && (exists n: int :: IsTenThousandths(n, average))
            && Abs(average * m.tradedEnergy - m.tradedPrice) <= 0.00005 * m.tradedEnergy
  {
    var quotient := m.tradedPrice / m.tradedEnergy;
    var n := (quotient * 10000.0 + 0.5).Floor;
    assert IsTenThousandths(n, AverageTradePrice(m));
    QuotientTimes(m.tradedPrice, m.tradedEnergy, quotient);
    NearestTenThousandth(quotient);
    NearTimes(AverageTradePrice(m), quotient, m.tradedEnergy, m.tradedPrice);
  }

  lemma NearestTenThousandth(x: real)
    ensures -0.00005 <= Round4(x) - x <= 0.00005
  {
  }

  predicate IsTenThousandths(n: int, x: real) {
    x * 10000.0 == n as real
  }

  lemma QuotientTimes(price: real, energy: real, quotient: real)
    requires energy > 0.0 && quotient == price / energy
    ensures quotient * energy == price
  {
  }

  lemma NearTimes(x: real, y: real, factor: real, total: real)
    requires factor > 0.0 && -0.00005 <= x - y <= 0.00005 && y * factor == total
    ensures Abs(x * factor - total) <= 0.00005 * factor
  {
    assert (x - y) * factor == x * factor - total;
    GapTimes(x - y, factor, x * factor - total);
  }

  lemma GapTimes(gap: real, factor: real, product: real)
    requires factor > 0.0 && -0.00005 <= gap <= 0.00005 && gap * factor == product
    ensures Abs(product) <= 0.00005 * factor
  {
    NonNegative(0.00005 - gap, factor, 0.00005 * factor - product);
    NonNegative(0.00005 + gap, factor, 0.00005 * factor + product);
  }

  lemma NonNegative(x: real, y: real, product: real)
    requires x >= 0.0 && y > 0.0 && x * y == product
    ensures product >= 0.0
  {
  }
}
