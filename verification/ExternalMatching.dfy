/** The external matcher hands its recommendations to the market one list of one at a time; a
    stale id is then resolved through the order's origin, while a batch is kept up to date by
    rewriting. Where every open order has an origin of its own, the two agree. */
module ExternalMatching {
  import opened Numeric
  import opened Books
  import opened MarketState
  import opened Acceptance
  import opened Settlement
  import opened TwoSided
  import opened Validation

  // The statuses reported, and the exception that ended the run early, if one did.
  datatype Report = Report(statuses: seq<bool>, aborted: Option<Error>)

  function OneByOne(cfg: Config, m: Market, recs: seq<Recommendation>): (Market, Report)
    requires Valid(m)
    decreases |recs|
  {
    if recs == [] then (m, Report([], None))
    else
      var (m1, r) := MatchAll(cfg, m, [recs[0]], false);
      if r.Err? && r.error != InvalidPair then (m1, Report([], Some(r.error)))
      else
        ValidAfterMatchAll(cfg, m, [recs[0]], false);
        var (m2, rest) := OneByOne(cfg, m1, recs[1..]);
        (m2, Report([r == Ok(true)] + rest.statuses, rest.aborted))
  }

  method MatchOneByOne(market: TwoSidedMarket, recs: seq<Recommendation>) returns (report: Report)
    requires Valid(market.State())
    modifies market
    ensures (market.State(), report) == OneByOne(market.cfg, old(market.State()), recs)
  {
    var statuses := [];
    ghost var start := market.State();
    assert recs[0..] == recs;
    assert statuses + OneByOne(market.cfg, start, recs).1.statuses == OneByOne(market.cfg, start, recs).1.statuses;
    for i := 0 to |recs|
      invariant Valid(market.State())
      invariant var (m, rest) := OneByOne(market.cfg, market.State(), recs[i..]);
                OneByOne(market.cfg, start, recs) == (m, Report(statuses + rest.statuses, rest.aborted))
    {
      assert recs[i..][0] == recs[i] && recs[i..][1..] == recs[i + 1..];
      var r := market.MatchRecommendations([recs[i]]);
      if r.Err? && r.error != InvalidPair {
        assert statuses + [] == statuses;
        return Report(statuses, Some(r.error));
      }
      ghost var rest := OneByOne(market.cfg, market.State(), recs[i + 1..]).1;
      assert statuses + ([r == Ok(true)] + rest.statuses) == statuses + [r == Ok(true)] + rest.statuses;
      statuses := statuses + [r == Ok(true)];
    }
    assert statuses + [] == statuses;
    return Report(statuses, None);
  }

  function OriginOn(side: Side, rec: Recommendation): Option<string> {
    if side.OfferSide? then rec.offerOrigin else rec.bidOrigin
  }

  // A recommendation that names the origin of the order it means; its ids were handed out before.
  ghost predicate Faithful(side: Side, m: Market, rec: Recommendation) {
    var key, open := KeyOn(side, rec), Find(BookOn(side, m), KeyOn(side, rec));
    && key < m.nextId && OriginOn(side, rec).Some?
    && (open.Some? ==> open.value.trader.originUuid == OriginOn(side, rec))
  }

  ghost predicate AllFaithful(m: Market, recs: seq<Recommendation>) {
    forall i :: 0 <= i < |recs| ==> Faithful(OfferSide, m, recs[i]) && Faithful(BidSide, m, recs[i])
  }

  ghost predicate OwnOrigins(m: Market) {
    UniqueOrigins(m.offers) && UniqueOrigins(m.bids)
  }

  // The same pair of orders is meant, by origin, on the same terms.
  predicate SameMeaning(rec: Recommendation, other: Recommendation) {
    && rec.offerOrigin == other.offerOrigin && rec.bidOrigin == other.bidOrigin
    && rec.selectedEnergy == other.selectedEnergy && rec.tradeRate == other.tradeRate
  }

  lemma ResolvedByOrigin(side: Side, m: Market, rec: Recommendation)
    requires Valid(m) && OwnOrigins(m) && Faithful(side, m, rec)
    ensures Resolve(BookOn(side, m), KeyOn(side, rec), OriginOn(side, rec)) ==
            FindByOrigin(BookOn(side, m), OriginOn(side, rec).value)
  {
    FindIn(BookOn(side, m), KeyOn(side, rec));
    FindByOriginIn(BookOn(side, m), OriginOn(side, rec).value);
  }

  lemma SameMeaningSameOutcome(cfg: Config, m: Market, rec: Recommendation, other: Recommendation)
    requires Valid(m) && OwnOrigins(m) && SameMeaning(rec, other)
    requires AllFaithful(m, [rec]) && AllFaithful(m, [other])
    ensures MatchOne(cfg, m, rec) == MatchOne(cfg, m, other)
  {
    assert Faithful(OfferSide, m, [rec][0]) && Faithful(BidSide, m, [rec][0]);
    assert Faithful(OfferSide, m, [other][0]) && Faithful(BidSide, m, [other][0]);
    ResolvedByOrigin(OfferSide, m, rec);
    ResolvedByOrigin(BidSide, m, rec);
    ResolvedByOrigin(OfferSide, m, other);
    ResolvedByOrigin(BidSide, m, other);
  }

  // ----- what a trade does to origins -----

  ghost predicate SideTraded(side: Side, m: Market, m1: Market, rec: Recommendation, leg: Trade) {
    var o := Resolve(BookOn(side, m), KeyOn(side, rec), OriginOn(side, rec));
    && o.Some? && o.value in BookOn(side, m) && Find(BookOn(side, m), o.value.id) == o
    && OrderOn(side, leg).Some? && OrderOn(side, leg).value.id == o.value.id
    && BookOn(side, m1) == BookAfter(BookOn(side, m), o.value.id, leg.residual)
    && (leg.residual.Some? ==> m.nextId <= leg.residual.value.id < m1.nextId &&
                               leg.residual.value.trader == o.value.trader)
    && m.nextId <= m1.nextId
  }

  lemma TradedSides(cfg: Config, m: Market, rec: Recommendation)
    requires Valid(m) && MatchOne(cfg, m, rec).Traded?
    ensures var out := MatchOne(cfg, m, rec);
            && Valid(out.market)
            && SideTraded(OfferSide, m, out.market, rec, out.offerTrade)
            && SideTraded(BidSide, m, out.market, rec, out.bidTrade)
  {
    ValidAfterMatchOne(cfg, m, rec);
    ResolvedIsOpen(m, rec.offerId, rec.offerOrigin, rec.bidId, rec.bidOrigin);
    var o, b := Resolve(m.offers, rec.offerId, rec.offerOrigin).value, Resolve(m.bids, rec.bidId, rec.bidOrigin).value;
    var info := ClearingInfo(cfg, o, b, rec.tradeRate).value;
    var energy := Min(Min(rec.selectedEnergy, o.energy), b.energy);
    var m1 := PairSteps(cfg, m, b, o, info, energy);
    hide AcceptOffer, AcceptBid, RequestedEnergy;
    AcceptedOfferEffect(cfg, m, o.id, b.trader, Some(energy), Some(info), Some(b));
    AcceptedBidEffect(cfg, m1, b, Some(energy), o.trader, info, Some(o));
  }

  lemma OriginsKeptOn(side: Side, m: Market, m1: Market, rec: Recommendation, leg: Trade)
    requires Valid(m) && UniqueOrigins(BookOn(side, m)) && SideTraded(side, m, m1, rec, leg)
    ensures UniqueOrigins(BookOn(side, m1))
  {
    var b, o := BookOn(side, m), Resolve(BookOn(side, m), KeyOn(side, rec), OriginOn(side, rec)).value;
    AfterPop(b, o.id);
    forall x | x in BookOn(side, m1)
      ensures (x in b && x.id != o.id) || leg.residual == Some(x)
    {
    }
    forall x | x in b && x.trader.originUuid == o.trader.originUuid ensures x == o {}
  }

  // A recommendation for a later turn, as it was (`rec`) and as the batch has rewritten it.
  lemma FaithfulAfterTrade(side: Side, m: Market, m1: Market, first: Recommendation, rec: Recommendation,
                           offerTrade: Trade, bidTrade: Trade)
    requires Valid(m) && SideTraded(side, m, m1, first, LegOn(side, offerTrade, bidTrade))
    requires offerTrade.offer.Some? && bidTrade.bid.Some?
    requires Faithful(side, m, rec)
    ensures Faithful(side, m1, rec)
    ensures Faithful(side, m1, RewriteOne(rec, offerTrade, bidTrade))
    ensures OriginOn(side, RewriteOne(rec, offerTrade, bidTrade)) == OriginOn(side, rec)
  {
    var leg := LegOn(side, offerTrade, bidTrade);
    KeysAreOld(side, m);
    FindBookAfter(BookOn(side, m), OrderOn(side, leg).value.id, leg.residual);
  }

  lemma TailFaithful(m: Market, recs: seq<Recommendation>)
    requires AllFaithful(m, recs) && recs != []
    ensures AllFaithful(m, recs[1..]) && AllFaithful(m, [recs[0]])
  {
    forall i | 0 <= i < |recs| - 1
      ensures Faithful(OfferSide, m, recs[1..][i]) && Faithful(BidSide, m, recs[1..][i])
    {
      assert recs[1..][i] == recs[i + 1];
    }
  }

  lemma FaithfulAfterStep(cfg: Config, m: Market, first: Recommendation, recs: seq<Recommendation>)
    requires Valid(m) && OwnOrigins(m) && MatchOne(cfg, m, first).Traded? && AllFaithful(m, recs)
    ensures var out := MatchOne(cfg, m, first);
            var rewritten := Rewrite(recs, out.offerTrade, out.bidTrade);
            && Valid(out.market) && OwnOrigins(out.market)
            && AllFaithful(out.market, recs) && AllFaithful(out.market, rewritten)
            && (forall i :: 0 <= i < |recs| ==> SameMeaning(recs[i], rewritten[i]))
  {
    hide MatchOne, Resolve;
    TradedSides(cfg, m, first);
    var out := MatchOne(cfg, m, first);
    OriginsKeptOn(OfferSide, m, out.market, first, out.offerTrade);
    OriginsKeptOn(BidSide, m, out.market, first, out.bidTrade);
    forall i | 0 <= i < |recs|
      ensures Faithful(OfferSide, out.market, recs[i]) && Faithful(BidSide, out.market, recs[i])
      ensures var r := RewriteOne(recs[i], out.offerTrade, out.bidTrade);
              Faithful(OfferSide, out.market, r) && Faithful(BidSide, out.market, r) && SameMeaning(recs[i], r)
    {
      FaithfulAfterTrade(OfferSide, m, out.market, first, recs[i], out.offerTrade, out.bidTrade);
      FaithfulAfterTrade(BidSide, m, out.market, first, recs[i], out.offerTrade, out.bidTrade);
    }
  }

  // The batch list and the original one mean the same, entry by entry.
  ghost predicate Parallel(recs: seq<Recommendation>, originals: seq<Recommendation>) {
    |recs| == |originals| && forall i :: 0 <= i < |recs| ==> SameMeaning(originals[i], recs[i])
  }

  // Which entries of a batch trade.
  function Outcomes(cfg: Config, m: Market, recs: seq<Recommendation>): seq<bool>
    requires Valid(m)
    decreases |recs|
  {
    if recs == [] then []
    else match MatchOne(cfg, m, recs[0])
      case Raised(_, _) => []
      case Skipped => [false] + Outcomes(cfg, m, recs[1..])
      case Traded(m1, offerTrade, bidTrade) =>
        ValidAfterMatchOne(cfg, m, recs[0]);
        [true] + Outcomes(cfg, m1, Rewrite(recs[1..], offerTrade, bidTrade))
  }

  // A batch that raises nothing leaves the very market that running the recommendations one at a
  // time leaves; the statuses of the latter are the batch's outcomes, entry by entry.
  lemma {:induction false} BatchAgreesWithOneByOne(cfg: Config, m: Market, recs: seq<Recommendation>,
                                                   originals: seq<Recommendation>, traded: bool)
    requires Valid(m) && OwnOrigins(m) && Parallel(recs, originals)
    requires AllFaithful(m, recs) && AllFaithful(m, originals)
    requires MatchAll(cfg, m, recs, traded).1.Ok?
    ensures var (m', r) := MatchAll(cfg, m, recs, traded);
            var (m'', report) := OneByOne(cfg, m, originals);
            && m'' == m' && report.aborted.None?
            && |report.statuses| == |recs| && report.statuses == Outcomes(cfg, m, recs)
            && (r == Ok(true) <==> traded || true in report.statuses)
    decreases |recs|
  {
    hide MatchOne, Faithful;
    if recs != [] {
      TailFaithful(m, recs);
      TailFaithful(m, originals);
      SameMeaningSameOutcome(cfg, m, originals[0], recs[0]);
      SingleMatch(cfg, m, originals[0]);
      var tail, rest := recs[1..], originals[1..];
      assert Parallel(tail, rest);
      match MatchOne(cfg, m, recs[0])
      case Raised(_, _) =>
      case Skipped => BatchAgreesWithOneByOne(cfg, m, tail, rest, traded);
      case Traded(m1, ot, bt) =>
        FaithfulAfterStep(cfg, m, recs[0], tail);
        FaithfulAfterStep(cfg, m, recs[0], rest);
        BatchAgreesWithOneByOne(cfg, m1, Rewrite(tail, ot, bt), rest, true);
    }
  }

  lemma SingleMatch(cfg: Config, m: Market, rec: Recommendation)
    requires Valid(m)
    ensures var (m', r) := MatchAll(cfg, m, [rec], false);
            match MatchOne(cfg, m, rec)
            case Raised(m1, x) => (m', r) == (m1, Err(x))
            case Skipped => (m', r) == (m, Ok(false))
            case Traded(m1, _, _) => (m', r) == (m1, Ok(true))
  {
    hide MatchOne;
    assert [rec][1..] == [];
  }

  lemma {:induction false} FeasibleBatchSucceeds(cfg: Config, m: Market, recs: seq<Recommendation>)
    requires Feasible(cfg, m, recs)
    ensures Valid(m) && forall status :: status in Outcomes(cfg, m, recs) ==> status
    decreases |recs|
  {
    hide MatchOne, Rewrite;
    if recs != [] {
      RestIsFeasible(cfg, m, recs);
      var out := MatchOne(cfg, m, recs[0]);
      FeasibleBatchSucceeds(cfg, out.market, Rewrite(recs[1..], out.offerTrade, out.bidTrade));
    }
  }

  // In particular a feasible batch and its one-by-one execution agree, and every status is true.
  lemma FeasibleBatchOneByOne(cfg: Config, m: Market, recs: seq<Recommendation>)
    requires Feasible(cfg, m, recs) && OwnOrigins(m) && AllFaithful(m, recs)
    ensures var (m'', report) := OneByOne(cfg, m, recs);
            && m'' == MatchAll(cfg, m, recs, false).0 && report.aborted.None?
            && |report.statuses| == |recs| && (forall i :: 0 <= i < |recs| ==> report.statuses[i])
  {
    hide MatchAll, OneByOne;
    FeasibleBatchTrades(cfg, m, recs, false);
    BatchAgreesWithOneByOne(cfg, m, recs, recs, false);
    FeasibleBatchSucceeds(cfg, m, recs);
    forall i | 0 <= i < |recs| ensures OneByOne(cfg, m, recs).1.statuses[i] {
      assert OneByOne(cfg, m, recs).1.statuses[i] in Outcomes(cfg, m, recs);
    }
  }

  // ----- entries that are refused -----

  // An entry that is refused, because an order of it is unknown or it is outside of the bounds, or passed over,
  // because both orders are the same trader's, is reported as failed; the others are matched as if it were not
  // there.
  lemma RefusalGoesOn(cfg: Config, m: Market, rec: Recommendation, rest: seq<Recommendation>)
    requires Valid(m)
    requires
      || Unknown(m.offers, rec.offerId, rec.offerOrigin) || Unknown(m.bids, rec.bidId, rec.bidOrigin)
      || (Find(m.offers, rec.offerId).Some? && Find(m.bids, rec.bidId).Some? &&
          (Find(m.offers, rec.offerId).value.trader.uuid == Find(m.bids, rec.bidId).value.trader.uuid ||
           !WithinBid(rec, Find(m.bids, rec.bidId).value) || !WithinOffer(rec, Find(m.offers, rec.offerId).value)))
    ensures var (m', report) := OneByOne(cfg, m, rest);
            OneByOne(cfg, m, [rec] + rest) == (m', Report([false] + report.statuses, report.aborted))
  {
    hide MatchAll, WithinBid, WithinOffer;
    NothingToMatch(cfg, m);
    assert [rec] + [] == [rec] && ([rec] + rest)[1..] == rest;
    if Unknown(m.offers, rec.offerId, rec.offerOrigin) || Unknown(m.bids, rec.bidId, rec.bidOrigin) {
      UnknownIsRefused(cfg, m, rec, [], false);
    } else if Find(m.offers, rec.offerId).value.trader.uuid == Find(m.bids, rec.bidId).value.trader.uuid {
      OwnPairIsPassedOver(cfg, m, rec, [], false);
    } else {
      OutsideIsRefused(cfg, m, rec, [], false);
    }
  }

  lemma NothingToMatch(cfg: Config, m: Market)
    requires Valid(m)
    ensures MatchAll(cfg, m, [], false) == (m, Ok(false))
  {
  }

  // Any other exception ends the run where it is raised: nothing is reported for the entry or behind it.
  lemma OtherErrorsAbort(cfg: Config, m: Market, rec: Recommendation, rest: seq<Recommendation>)
    requires Valid(m) && m.readonly && Find(m.offers, rec.offerId).Some? && Find(m.bids, rec.bidId).Some?
    requires Find(m.offers, rec.offerId).value.trader.uuid != Find(m.bids, rec.bidId).value.trader.uuid
    requires WithinBid(rec, Find(m.bids, rec.bidId).value) && WithinOffer(rec, Find(m.offers, rec.offerId).value)
    requires cfg.payAsBid
    ensures OneByOne(cfg, m, [rec] + rest) == (m, Report([], Some(ReadOnly)))
  {
    ResolvedIsOpen(m, rec.offerId, rec.offerOrigin, rec.bidId, rec.bidOrigin);
    FindIn(m.offers, rec.offerId);
    BoundsAreChecked(Find(m.offers, rec.offerId).value, Find(m.bids, rec.bidId).value, rec);
    assert ([rec] + rest)[1..] == rest && [rec][1..] == [];
    assert MatchOne(cfg, m, rec) == Raised(m, ReadOnly);
  }
}
