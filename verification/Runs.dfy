/** Runs of a market: any sequence of postings, deletions, acceptances, batches and matching
    ticks, failing ones included. */
module Runs {
  import opened Numeric
  import opened Books
  import opened Fees
  import opened MarketState
  import opened TwoSided
  import opened MatchingEngine

  datatype Action =
    | PostsOffer(price: real, energy: real, trader: Trader, originalPrice: Option<real>, timeSlot: int)
    | PostsBid(price: real, energy: real, trader: Trader, originalPrice: Option<real>, timeSlot: int)
    | DeletesOffer(id: nat)
    | DeletesBid(id: nat)
    | AcceptsOffer(id: nat, trader: Trader, requested: Option<real>, info: Option<TradeInfo>)
    | AcceptsBid(bid: Order, requested: Option<real>, trader: Trader, bidInfo: TradeInfo)
    | Matches(recs: seq<Recommendation>)
    | Ticks
    | AsksAverage

  function Outcome<T>(r: Result<T>): Option<Error> {
    if r.Ok? then None else Some(r.error)
  }

  // The market after one action, and the exception the action ended with, if any.
  function Step(cfg: Config, matcher: Matcher, m: Market, a: Action): (Market, Option<Error>)
    requires Valid(m)
  {
    match a
    case PostsOffer(price, energy, trader, original, slot) =>
      var (m', r) := PostOffer(cfg, m, price, energy, trader, None, original, true, true, slot); (m', Outcome(r))
    case PostsBid(price, energy, trader, original, slot) =>
      var (m', r) := PostBid(cfg, m, price, energy, trader, None, original, true, true, slot); (m', Outcome(r))
    case DeletesOffer(id) => var (m', r) := DeleteOffer(m, id); (m', Outcome(r))
    case DeletesBid(id) => var (m', r) := DeleteBid(m, id); (m', Outcome(r))
    case AcceptsOffer(id, trader, energy, info) =>
      var (m', r) := AcceptOffer(cfg, m, id, trader, energy, info, None); (m', Outcome(r))
    case AcceptsBid(bid, energy, trader, info) =>
      var (m', r) := AcceptBid(cfg, m, bid, energy, trader, info, None); (m', Outcome(r))
    case Matches(recs) => var (m', r) := MatchAll(cfg, m, recs, false); (m', Outcome(r))
    case Ticks => var (m', r) := MatchMarket(cfg, m, matcher); (m', Outcome(r))
    case AsksAverage =>
      (if m.averagePrice.Some? then m else m.(averagePrice := Some(AverageTradePrice(m))), None)
  }

  lemma {:induction false} ValidAfterMatchUntilDone(cfg: Config, m: Market, matcher: Matcher)
    requires Valid(m)
    ensures Valid(MatchUntilDone(cfg, m, matcher).0)
    decreases Units(m)
  {
    hide MatchAll;
    var pairs := matcher(m.offers, m.bids);
    if pairs != [] {
      var (m1, r) := MatchAll(cfg, m, pairs, false);
      ValidAfterMatchAll(cfg, m, pairs, false);
      if r == Ok(true) {
        RoundDropsUnits(cfg, m, pairs);
        ValidAfterMatchUntilDone(cfg, m1, matcher);
      }
    }
  }

  lemma ValidAfterStep(cfg: Config, matcher: Matcher, m: Market, a: Action)
    requires Valid(m)
    ensures Valid(Step(cfg, matcher, m, a).0)
  {
    hide PostOffer, PostBid, DeleteOffer, DeleteBid, AcceptOffer, AcceptBid, MatchAll, MatchUntilDone;
    match a
    case PostsOffer(price, energy, trader, original, slot) =>
      ValidAfterPostOffer(cfg, m, price, energy, trader, original, true, true, slot);
    case PostsBid(price, energy, trader, original, slot) =>
      ValidAfterPostBid(cfg, m, price, energy, trader, original, true, true, slot);
    case DeletesOffer(id) => ValidAfterDeleting(m, id);
    case DeletesBid(id) => ValidAfterDeleting(m, id);
    case AcceptsOffer(id, trader, energy, info) => ValidAfterAcceptOffer(cfg, m, id, trader, energy, info, None);
    case AcceptsBid(bid, energy, trader, info) => ValidAfterAcceptBid(cfg, m, bid, energy, trader, info, None);
    case Matches(recs) => ValidAfterMatchAll(cfg, m, recs, false);
    case Ticks => ValidAfterMatchUntilDone(cfg, m, matcher);
    case AsksAverage =>
  }

  // The market a run of actions leads to.
  function Run(cfg: Config, matcher: Matcher, m: Market, actions: seq<Action>): Market
    requires Valid(m)
    decreases |actions|
  {
    if actions == [] then m
    else
      ValidAfterStep(cfg, matcher, m, actions[0]);
      Run(cfg, matcher, Step(cfg, matcher, m, actions[0]).0, actions[1..])
  }

  lemma {:induction false} ValidAfterRun(cfg: Config, matcher: Matcher, m: Market, actions: seq<Action>)
    requires Valid(m)
    ensures Valid(Run(cfg, matcher, m, actions))
    decreases |actions|
  {
    hide Step;
    if actions != [] {
      ValidAfterStep(cfg, matcher, m, actions[0]);
      ValidAfterRun(cfg, matcher, Step(cfg, matcher, m, actions[0]).0, actions[1..]);
    }
  }
}
