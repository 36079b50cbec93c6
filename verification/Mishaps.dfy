/** What a failing operation can leave wrong, told from the state it starts in: a residual stranded
    beside its original, or an open bid lost. An operation ends with its first exception, so it has
    one mishap at most. */
module Mishaps {
  import opened Numeric
  import opened Books
  import opened Fees
  import opened MarketState
  import opened Acceptance
  import opened MatchingEngine
  import opened Runs

  type Positive = x: real | x > 0.0 witness 1.0

  // The offer left whole beside a residual of so much energy, or the bid that went and how much of
  // its energy went with it.
  datatype Mishap = NoMishap | StrandedResidual(offer: Order, energy: Positive) | LostBid(bid: Order, energy: Positive)

  ghost function OfferMishap(cfg: Config, m: Market, id: nat, energy: Option<real>, info: Option<TradeInfo>): Mishap {
    if Strands(cfg, m, id, energy, info) then
      var o := Find(m.offers, id).value;
      StrandedResidual(o, o.energy - RequestedEnergy(energy, o.energy))
    else NoMishap
  }

  // A residual that was cut off before the exception stays; otherwise all of the bid's energy goes.
  function EnergyLost(b: Order, e: real): real {
    if TOL < e < b.energy - TOL && b.price >= 0.0 then e else b.energy
  }

  ghost function BidMishap(cfg: Config, m: Market, bid: Order, energy: Option<real>, info: TradeInfo): Mishap
    requires Valid(m)
  {
    if LosesBid(cfg, m, bid, energy, info) then
      var b := Find(m.bids, bid.id).value;
      assert OpenBid(b, m.nextId);
      LostBid(b, EnergyLost(b, RequestedEnergy(energy, b.energy)))
    else NoMishap
  }

  // The bid leg is reached once the offer leg went through, and finds the bids as they were.
  ghost function PairMishap(cfg: Config, m: Market, bid: Order, offer: Order, info: TradeInfo, energy: real): Mishap
    requires Valid(m)
  {
    if !m.readonly && OfferLegGoesThrough(cfg, offer, Some(energy), Some(info))
    then BidMishap(cfg, m, bid, Some(energy), info)
    else OfferMishap(cfg, m, offer.id, Some(energy), Some(info))
  }

  ghost function MatchOneMishap(cfg: Config, m: Market, rec: Recommendation): Mishap
    requires Valid(m)
  {
    var offer := Resolve(m.offers, rec.offerId, rec.offerOrigin);
    var bid := Resolve(m.bids, rec.bidId, rec.bidOrigin);
    if offer.None? || bid.None? then NoMishap
    else
      ResolvedIsOpen(m, rec.offerId, rec.offerOrigin, rec.bidId, rec.bidOrigin);
      var o, b := offer.value, bid.value;
      if o.trader.uuid == b.trader.uuid || !ValidMatch(o, b, rec) then NoMishap
      else match ClearingInfo(cfg, o, b, rec.tradeRate)
        case None => NoMishap
        case Some(info) => PairMishap(cfg, m, b, o, info, Min(Min(rec.selectedEnergy, o.energy), b.energy))
  }

  ghost function MatchAllMishap(cfg: Config, m: Market, recs: seq<Recommendation>): Mishap
    requires Valid(m)
    decreases |recs|
  {
    if recs == [] then NoMishap
    else match MatchOne(cfg, m, recs[0])
      case Raised(_, _) => MatchOneMishap(cfg, m, recs[0])
      case Skipped => MatchAllMishap(cfg, m, recs[1..])
      case Traded(m', offerTrade, bidTrade) =>
        ValidAfterMatchOne(cfg, m, recs[0]);
        MatchAllMishap(cfg, m', Rewrite(recs[1..], offerTrade, bidTrade))
  }

  ghost function LoopMishap(cfg: Config, m: Market, matcher: Matcher): Mishap
    requires Valid(m)
    decreases Units(m)
  {
    var pairs := matcher(m.offers, m.bids);
    if pairs == [] then NoMishap
    else
      var (m1, r) := MatchAll(cfg, m, pairs, false);
      ValidAfterMatchAll(cfg, m, pairs, false);
      if r == Ok(true) then
        RoundDropsUnits(cfg, m, pairs);
        LoopMishap(cfg, m1, matcher)
      else MatchAllMishap(cfg, m, pairs)
  }

  ghost function StepMishap(cfg: Config, matcher: Matcher, m: Market, a: Action): Mishap
    requires Valid(m)
  {
    match a
    case AcceptsOffer(id, _, energy, info) => OfferMishap(cfg, m, id, energy, info)
    case AcceptsBid(bid, energy, _, info) => BidMishap(cfg, m, bid, energy, info)
    case Matches(recs) => MatchAllMishap(cfg, m, recs)
    case Ticks => if m.noNewOrder then NoMishap else LoopMishap(cfg, m, matcher)
    case _ => NoMishap
  }

  // The mishaps of a run, step by step.
  ghost function MishapsOf(cfg: Config, matcher: Matcher, m: Market, actions: seq<Action>): (r: seq<Mishap>)
    requires Valid(m)
    ensures |r| == |actions|
    decreases |actions|
  {
    if actions == [] then []
    else
      ValidAfterStep(cfg, matcher, m, actions[0]);
      [StepMishap(cfg, matcher, m, actions[0])] +
      MishapsOf(cfg, matcher, Step(cfg, matcher, m, actions[0]).0, actions[1..])
  }

  function EnergyStrandedBy(x: Mishap): real {
    if x.StrandedResidual? then x.energy else 0.0
  }

  function EnergyLostBy(x: Mishap): real {
    if x.LostBid? then x.energy else 0.0
  }

  function EnergyStranded(all: seq<Mishap>): real {
    if all == [] then 0.0 else EnergyStrandedBy(all[0]) + EnergyStranded(all[1..])
  }

  function EnergyLostIn(all: seq<Mishap>): real {
    if all == [] then 0.0 else EnergyLostBy(all[0]) + EnergyLostIn(all[1..])
  }

  // Energy is stranded, or lost, exactly where some step has the mishap.
  lemma {:induction false} NothingWentWrongIff(all: seq<Mishap>)
    ensures EnergyStranded(all) >= 0.0 && EnergyLostIn(all) >= 0.0
    ensures EnergyStranded(all) == 0.0 <==> forall x :: x in all ==> !x.StrandedResidual?
    ensures EnergyLostIn(all) == 0.0 <==> forall x :: x in all ==> !x.LostBid?
  {
    if all != [] {
      NothingWentWrongIff(all[1..]);
      assert all == [all[0]] + all[1..];
    }
  }

  // A pair with a mishap does not complete.
  lemma PairMishapIsRaised(cfg: Config, m: Market, bid: Order, offer: Order, info: TradeInfo, energy: real)
    requires Valid(m) && Find(m.offers, offer.id) == Some(offer)
    requires PairMishap(cfg, m, bid, offer, info, energy) != NoMishap
    ensures AcceptPair(cfg, m, bid, offer, info, energy).1.Err?
  {
    hide AcceptOffer, AcceptBid, OfferLegGoesThrough, BidLegGoesThrough, StrandsResidual;
    var m1 := AcceptOffer(cfg, m, offer.id, bid.trader, Some(energy), Some(info), Some(bid)).0;
    OfferAcceptedIff(cfg, m, offer.id, bid.trader, Some(energy), Some(info), Some(bid));
    if AcceptOffer(cfg, m, offer.id, bid.trader, Some(energy), Some(info), Some(bid)).1.Ok? {
      AcceptedOfferEffect(cfg, m, offer.id, bid.trader, Some(energy), Some(info), Some(bid));
      ValidAfterAcceptOffer(cfg, m, offer.id, bid.trader, Some(energy), Some(info), Some(bid));
      BidAcceptedIff(cfg, m1, bid, Some(energy), offer.trader, info, Some(offer));
    }
  }

  lemma MatchOneMishapIsRaised(cfg: Config, m: Market, rec: Recommendation)
    requires Valid(m) && MatchOneMishap(cfg, m, rec) != NoMishap
    ensures MatchOne(cfg, m, rec).Raised?
  {
    hide AcceptPair, PairMishap, Valid;
    ResolvedIsOpen(m, rec.offerId, rec.offerOrigin, rec.bidId, rec.bidOrigin);
    var o, b := Resolve(m.offers, rec.offerId, rec.offerOrigin).value, Resolve(m.bids, rec.bidId, rec.bidOrigin).value;
    var info := ClearingInfo(cfg, o, b, rec.tradeRate).value;
    PairMishapIsRaised(cfg, m, b, o, info, Min(Min(rec.selectedEnergy, o.energy), b.energy));
  }

  lemma {:induction false} MatchAllMishapIsRaised(cfg: Config, m: Market, recs: seq<Recommendation>, traded: bool)
    requires Valid(m)
    ensures MatchAllMishap(cfg, m, recs) != NoMishap ==> MatchAll(cfg, m, recs, traded).1.Err?
    decreases |recs|
  {
    hide MatchOne, MatchOneMishap;
    if recs != [] {
      match MatchOne(cfg, m, recs[0])
      case Raised(_, _) =>
      case Skipped => MatchAllMishapIsRaised(cfg, m, recs[1..], traded);
      case Traded(m1, ot, bt) =>
        ValidAfterMatchOne(cfg, m, recs[0]);
        MatchAllMishapIsRaised(cfg, m1, Rewrite(recs[1..], ot, bt), true);
    }
  }
}
