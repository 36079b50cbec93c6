/** The matching engine's loop over one market: match until nothing trades, then remember that
    nothing is left to match. The matching algorithm is a parameter. */
module MatchingEngine {
  import opened Numeric
  import opened Books
  import opened MarketState
  import opened Acceptance
  import opened TwoSided

  // A matching algorithm sees the open offers and bids and recommends pairs.
  type Matcher = (Book, Book) -> seq<Recommendation>

  // ----- termination -----

  // How many times TOL fits into the open offer energy.
  function Units(m: Market): int {
    (Energy(m.offers) / TOL).Floor
  }

  lemma UnitsNonNegative(m: Market)
    requires Valid(m)
    ensures Units(m) >= 0
  {
    forall o | o in m.offers ensures o.energy >= 0.0 {
      InFind(m.offers, o);
    }
    EnergyNonNegative(m.offers);
  }

  lemma TradeTakesEnergy(cfg: Config, m: Market, rec: Recommendation)
    requires Valid(m) && MatchOne(cfg, m, rec).Traded?
    ensures Energy(MatchOne(cfg, m, rec).market.offers) <= Energy(m.offers) - TOL
  {
    ResolvedIsOpen(m, rec.offerId, rec.offerOrigin, rec.bidId, rec.bidOrigin);
    var o, b := Resolve(m.offers, rec.offerId, rec.offerOrigin).value, Resolve(m.bids, rec.bidId, rec.bidOrigin).value;
    var info := ClearingInfo(cfg, o, b, rec.tradeRate).value;
    var energy := Min(Min(rec.selectedEnergy, o.energy), b.energy);
    var m1 := PairSteps(cfg, m, b, o, info, energy);
    hide AcceptOffer, AcceptBid;
    AcceptedOfferTakes(cfg, m, o.id, b.trader, Some(energy), Some(info), Some(b));
    AcceptedBidEffect(cfg, m1, b, Some(energy), o.trader, info, Some(o));
  }

  // A booked offer trade takes the traded order's energy, TOL at least, out of the book.
  lemma AcceptedOfferTakes(cfg: Config, m: Market, id: nat, buyer: Trader, energy: Option<real>,
                           info: Option<Fees.TradeInfo>, bid: Option<Order>)
    requires Valid(m) && AcceptOffer(cfg, m, id, buyer, energy, info, bid).1.Ok?
    ensures var (m', r) := AcceptOffer(cfg, m, id, buyer, energy, info, bid);
            && r.value.offer.Some? && r.value.offer.value.energy >= TOL
            && Energy(m'.offers) == Energy(m.offers) - r.value.offer.value.energy
            && Abs(r.value.offer.value.energy - r.value.tradedEnergy) <= TOL
  {
    OfferAcceptedIff(cfg, m, id, buyer, energy, info, bid);
    AcceptedOfferEffect(cfg, m, id, buyer, energy, info, bid);
    var o := Find(m.offers, id).value;
    var e := RequestedEnergy(energy, o.energy);
    hide AcceptOffer, RequestedEnergy, BookAfter;
    FreshOffer(m.offers, m.nextId);
    FindBookAfter(m.offers, id, Remainder(o, e, OriginalOfferPrice(o), m.nextId));
  }

  // A call that reports trades has lowered the open offer energy by TOL at least.
  lemma {:induction false} RoundTakesEnergy(cfg: Config, m: Market, recs: seq<Recommendation>, traded: bool)
    requires Valid(m) && MatchAll(cfg, m, recs, traded).1.Ok?
    ensures var (m', r) := MatchAll(cfg, m, recs, traded);
            && Energy(m'.offers) <= Energy(m.offers)
            && (r.value && !traded ==> Energy(m'.offers) <= Energy(m.offers) - TOL)
            && (traded ==> r.value)
    decreases |recs|
  {
    hide MatchOne;
    if recs != [] {
      match MatchOne(cfg, m, recs[0])
      case Raised(_, _) =>
      case Skipped => RoundTakesEnergy(cfg, m, recs[1..], traded);
      case Traded(m1, ot, bt) =>
        ValidAfterMatchOne(cfg, m, recs[0]);
        TradeTakesEnergy(cfg, m, recs[0]);
        RoundTakesEnergy(cfg, m1, Rewrite(recs[1..], ot, bt), true);
    }
  }

  lemma RoundDropsUnits(cfg: Config, m: Market, recs: seq<Recommendation>)
    requires Valid(m) && MatchAll(cfg, m, recs, false).1 == Ok(true)
    ensures 0 <= Units(MatchAll(cfg, m, recs, false).0) < Units(m)
  {
    var m' := MatchAll(cfg, m, recs, false).0;
    ValidAfterMatchAll(cfg, m, recs, false);
    RoundTakesEnergy(cfg, m, recs, false);
    UnitsNonNegative(m');
  }

  // ----- the loop -----

  // The outcome of the loop; it is defined for every matcher because the loop ends for every one.
  function MatchUntilDone(cfg: Config, m: Market, matcher: Matcher): (Market, Result<()>)
    requires Valid(m)
    decreases Units(m)
  {
    var pairs := matcher(m.offers, m.bids);
    if pairs == [] then (m.(noNewOrder := true), Ok(()))
    else
      var (m1, r) := MatchAll(cfg, m, pairs, false);
      match r
      case Err(x) => (m1, Err(x))
      case Ok(traded) =>
        if !traded then (m1.(noNewOrder := true), Ok(()))
        else
          RoundDropsUnits(cfg, m, pairs);
          ValidAfterMatchAll(cfg, m, pairs, false);
          MatchUntilDone(cfg, m1, matcher)
  }

  function MatchMarket(cfg: Config, m: Market, matcher: Matcher): (Market, Result<()>)
    requires Valid(m)
  {
    if m.noNewOrder then (m, Ok(())) else MatchUntilDone(cfg, m, matcher)
  }

  // The loop ends with an exception, or with the flag set, once the algorithm has nothing to recommend or
  // nothing of it trades.
  lemma {:induction false} LoopEndsDone(cfg: Config, m: Market, matcher: Matcher)
    requires Valid(m)
    ensures var (m', r) := MatchUntilDone(cfg, m, matcher);
            r.Ok? ==>
              && m'.noNewOrder && Valid(m')
              && var pairs := matcher(m'.offers, m'.bids);
                 exists flag: bool :: MatchAll(cfg, m'.(noNewOrder := flag), pairs, false).1 == Ok(false)
    decreases Units(m)
  {
    hide MatchAll;
    var pairs := matcher(m.offers, m.bids);
    if pairs == [] {
      NothingTrades(cfg, m);
    } else {
      var (m1, r) := MatchAll(cfg, m, pairs, false);
      ValidAfterMatchAll(cfg, m, pairs, false);
      if r == Ok(true) {
        RoundDropsUnits(cfg, m, pairs);
        LoopEndsDone(cfg, m1, matcher);
      } else if r == Ok(false) {
        NoTradeNoChange(cfg, m, pairs);
        assert m1.(noNewOrder := true).(noNewOrder := m.noNewOrder) == m;
      }
    }
  }

  lemma NothingTrades(cfg: Config, m: Market)
    requires Valid(m)
    ensures MatchAll(cfg, m, [], false) == (m, Ok(false)) && m.(noNewOrder := true).(noNewOrder := m.noNewOrder) == m
  {
  }

  // A call that reports no trade has changed nothing.
  lemma {:induction false} NoTradeNoChange(cfg: Config, m: Market, recs: seq<Recommendation>)
    requires Valid(m) && MatchAll(cfg, m, recs, false).1 == Ok(false)
    ensures MatchAll(cfg, m, recs, false).0 == m
    decreases |recs|
  {
    hide MatchOne;
    if recs != [] {
      match MatchOne(cfg, m, recs[0])
      case Raised(_, _) =>
      case Skipped => NoTradeNoChange(cfg, m, recs[1..]);
      case Traded(m1, ot, bt) =>
        ValidAfterMatchOne(cfg, m, recs[0]);
        RoundTakesEnergy(cfg, m1, Rewrite(recs[1..], ot, bt), true);
    }
  }

  // The turn of one market.
  method MatchMarketRecommendations(market: TwoSidedMarket, matcher: Matcher) returns (r: Result<()>)
    requires Valid(market.State())
    modifies market
    ensures (market.State(), r) == MatchMarket(market.cfg, old(market.State()), matcher)
  {
    if market.noNewOrder {
      return Ok(());
    }
    ghost var start := market.State();
    while true
      invariant Valid(market.State())
      invariant MatchUntilDone(market.cfg, start, matcher) == MatchUntilDone(market.cfg, market.State(), matcher)
      decreases Units(market.State())
    {
      ghost var before := market.State();
      var pairs := matcher(market.offers, market.bids);
      if pairs == [] {
        break;
      }
      var traded := market.MatchRecommendations(pairs);
      if traded.Err? {
        return Err(traded.error);
      }
      if !traded.value {
        break;
      }
      RoundDropsUnits(market.cfg, before, pairs);
    }
    market.noNewOrder := true;
    return Ok(());
  }

  // The market's turn went from one state to another with the given outcome.
  ghost predicate Matched(cfg: Config, m: Market, matcher: Matcher, m': Market, r: Result<()>) {
    Valid(m) && MatchMarket(cfg, m, matcher) == (m', r)
  }

  lemma TurnIsMatched(cfg: Config, m: Market, matcher: Matcher, m': Market, r: Result<()>)
    requires Valid(m) && MatchMarket(cfg, m, matcher) == (m', r)
    ensures Matched(cfg, m, matcher, m', r)
  {
  }

  ghost predicate Different(markets: seq<TwoSidedMarket?>) {
    forall i, j :: 0 <= i < j < |markets| && markets[i] != null ==> markets[i] != markets[j]
  }

  // All markets in turn, missing ones skipped; an exception ends it, and the markets behind are left
  // as they were.
  method MatchRecommendations(markets: seq<TwoSidedMarket?>, matcher: Matcher) returns (r: Result<()>, done: nat)
    requires Different(markets)
    requires forall i :: 0 <= i < |markets| && markets[i] != null ==> Valid(markets[i].State())
    modifies set i | 0 <= i < |markets| && markets[i] != null :: markets[i]
    ensures done <= |markets| && (r.Ok? <==> done == |markets|)
    ensures forall i :: 0 <= i < done && markets[i] != null ==>
              Matched(markets[i].cfg, old(markets[i].State()), matcher, markets[i].State(), Ok(()))
    ensures r.Err? ==> markets[done] != null
    ensures r.Err? ==> Matched(markets[done].cfg, old(markets[done].State()), matcher, markets[done].State(), r)
    ensures forall i :: done < i < |markets| && markets[i] != null ==> markets[i].State() == old(markets[i].State())
  {
    done := 0;
    while done < |markets|
      invariant done <= |markets|
      invariant forall i :: 0 <= i < done && markets[i] != null ==>
                  Matched(markets[i].cfg, old(markets[i].State()), matcher, markets[i].State(), Ok(()))
      invariant forall i :: done <= i < |markets| && markets[i] != null ==>
                  markets[i].State() == old(markets[i].State())
    {
      hide Valid, MatchMarket, Matched;
      var market := markets[done];
      if market != null {
        ghost var before := market.State();
        label Turn:
        r := MatchMarketRecommendations(market, matcher);
        TurnIsMatched(market.cfg, before, matcher, market.State(), r);
        forall i | 0 <= i < |markets| && i != done && markets[i] != null
          ensures markets[i].State() == old@Turn(markets[i].State())
        {
          assert markets[i] != market;
        }
        if r.Err? {
          return;
        }
        assert r.value == ();
      }
      done := done + 1;
    }
    return Ok(()), done;
  }
}
