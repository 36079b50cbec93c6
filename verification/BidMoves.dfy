/** What a strategy does with its own bids, and the agreement of its records with the market over
    every run. */
module BidMoves {
  import opened Numeric
  import opened Books
  import opened Fees
  import opened MarketState
  import opened TwoSided
  import opened MatchingEngine
  import opened Runs
  import opened Mishaps
  import opened FairMarkets
  import opened StrategyBids

  // Out of the market, if it is still there, and out of the records.
  function Withdrawn(m: Market, c: BidCache, id: nat): (Market, BidCache) {
    (DeleteBid(m, id).0, c.(bids := Pop(c.bids, id)))
  }

  function WithdrawnAll(m: Market, c: BidCache, bids: Book, timeSlot: Option<int>): (Market, BidCache)
    decreases |bids|
  {
    if bids == [] then (m, c)
    else
      var (m1, c1) := if InSlot(bids[0], timeSlot) then Withdrawn(m, c, bids[0].id) else (m, c);
      WithdrawnAll(m1, c1, bids[1..], timeSlot)
  }

  // The same, market first.
  function Ids(b: Book): (ids: seq<nat>)
    ensures |ids| == |b|
  {
    if b == [] then [] else [b[0].id] + Ids(b[1..])
  }

  function DeletedAll(m: Market, ids: seq<nat>): Market
    decreases |ids|
  {
    if ids == [] then m else DeletedAll(DeleteBid(m, ids[0]).0, ids[1..])
  }

  function PoppedAll(b: Book, ids: seq<nat>): Book
    decreases |ids|
  {
    if ids == [] then b else PoppedAll(Pop(b, ids[0]), ids[1..])
  }

  lemma {:induction false} WithdrawnAllIs(m: Market, c: BidCache, bids: Book)
    ensures WithdrawnAll(m, c, bids, None) ==
            (DeletedAll(m, Ids(bids)), c.(bids := PoppedAll(c.bids, Ids(bids))))
    decreases |bids|
  {
    hide DeleteBid;
    if bids != [] {
      var (m1, c1) := Withdrawn(m, c, bids[0].id);
      assert Ids(bids)[0] == bids[0].id && Ids(bids)[1..] == Ids(bids[1..]);
      WithdrawnAllIs(m1, c1, bids[1..]);
    }
  }

  lemma OnlyOneGone(m: Market, c: BidCache, id: nat)
    ensures Withdrawn(m, c, id) == (DeletedAll(m, [id]), c.(bids := PoppedAll(c.bids, [id])))
  {
    assert [id][1..] == [];
  }

  lemma NothingToDelete(m: Market, id: nat)
    ensures Find(m.bids, id).None? ==> DeleteBid(m, id).0 == m
  {
  }

  lemma DeletedIs(m: Market, id: nat)
    ensures Find(m.bids, id).Some? ==> DeleteBid(m, id).1 == Ok(Find(m.bids, id).value)
    ensures Find(m.bids, id).Some? ==> Find(m.bids, id).value.id == id
  {
    FindIn(m.bids, id);
  }

  lemma {:induction false} PopsCommute(b: Book, id: nat, other: nat)
    ensures Pop(Pop(b, id), other) == Pop(Pop(b, other), id)
  {
    if b != [] {
      PopsCommute(b[1..], id, other);
      assert ([b[0]] + Pop(b[1..], id))[1..] == Pop(b[1..], id);
      assert ([b[0]] + Pop(b[1..], other))[1..] == Pop(b[1..], other);
    }
  }

  // An id that is popped in any case may be popped before.
  lemma {:induction false} PoppedAlready(b: Book, ids: seq<nat>, id: nat)
    requires id in ids
    ensures PoppedAll(Pop(b, id), ids) == PoppedAll(b, ids)
    decreases |ids|
  {
    if ids[0] == id {
      FoundAndGone(b, id);
    } else {
      PopsCommute(b, id, ids[0]);
      PoppedAlready(Pop(b, ids[0]), ids[1..], id);
    }
  }

  // Posts a bid and records it once the market has taken it.
  function PostedOne(cfg: Config, m: Market, c: BidCache, me: Trader, price: real, energy: real, timeSlot: int)
    : (Market, BidCache, Result<Order>)
  {
    var (m', r) := PostBid(cfg, m, price, energy, me, None, Some(price), true, true, timeSlot);
    (m', if r.Ok? then c.(bids := c.bids + [r.value]) else c, r)
  }

  function Posted(cfg: Config, m: Market, c: BidCache, me: Trader, price: real, energy: real, replaceExisting: bool,
                  timeSlot: int): (Market, BidCache, Result<Order>)
  {
    var (m1, c1) := if replaceExisting then WithdrawnAll(m, c, c.bids, Some(timeSlot)) else (m, c);
    PostedOne(cfg, m1, c1, me, price, energy, timeSlot)
  }

  predicate NeedsUpdate(o: Order, rate: real)
    requires o.energy != 0.0
  {
    Abs(o.Rate() - rate) > TOL
  }

  // Replaces the slot's bids one by one; a refused posting ends the loop with its exception.
  function Repriced(cfg: Config, m: Market, c: BidCache, me: Trader, bids: Book, rate: real, timeSlot: Option<int>)
    : (Market, BidCache, Option<Error>)
    requires forall b :: b in bids ==> b.energy > 0.0
    decreases |bids|
  {
    if bids == [] then (m, c, None)
    else if !InSlot(bids[0], timeSlot) || !NeedsUpdate(bids[0], rate)
    then Repriced(cfg, m, c, me, bids[1..], rate, timeSlot)
    else
      var (m1, c1) := Withdrawn(m, c, bids[0].id);
      var (m2, c2, r) := PostedOne(cfg, m1, c1, me, PriceAt(bids[0], rate), bids[0].energy, bids[0].timeSlot);
      if r.Err? then (m2, c2, Some(r.error)) else Repriced(cfg, m2, c2, me, bids[1..], rate, timeSlot)
  }

  class BidEnabledStrategy {
    const me: Trader
    var bids: Book
    var tradedBids: Book

    function State(): BidCache
      reads this
    {
      BidCache(bids, tradedBids)
    }

    constructor (me: Trader)
      ensures this.me == me && State() == BidCache([], [])
    {
      this.me := me;
      bids, tradedBids := [], [];
    }

    // One bid, or all of them: first out of the market, then out of the records.
    method RemoveBidFromPending(market: TwoSidedMarket, id: Option<nat>)
      modifies this, market
      ensures (market.State(), State()) ==
              match id
              case Some(k) => Withdrawn(old(market.State()), old(State()), k)
              case None => WithdrawnAll(old(market.State()), old(State()), old(bids), None)
    {
      hide DeleteBid;
      var ids := if id.None? then Ids(bids) else [id.value];
      ghost var m0, c0 := market.State(), State();
      WithdrawnAllIs(m0, c0, bids);
      OnlyOneGone(m0, c0, if id.None? then 0 else id.value);
      assert ids[0..] == ids;
      for i := 0 to |ids|
        invariant DeletedAll(m0, ids) == DeletedAll(market.State(), ids[i..])
        invariant PoppedAll(bids, ids) == PoppedAll(c0.bids, ids) && tradedBids == c0.traded
      {
        assert ids[i..][0] == ids[i] && ids[i..][1..] == ids[i + 1..];
        NothingToDelete(market.State(), ids[i]);
        PoppedAlready(bids, ids, ids[i]);
        label Before:
        if Find(market.bids, ids[i]).Some? {
          var deleted := market.DeleteBid(ids[i]);
          DeletedIs(old@Before(market.State()), ids[i]);
          // The deletion event comes back before the call returns.
          EventBidDeleted(deleted.value);
        }
      }
      bids := PoppedAll(bids, ids);
    }

    method EventBidDeleted(bid: Order)
      modifies this
      ensures State() == Handled(old(State()), me.name, BidDeleted(bid))
    {
      if bid.trader.name == me.name {
        bids := Pop(bids, bid.id);
      }
    }

    method EventBidSplit(original: Order, accepted: Order, residual: Order)
      modifies this
      ensures State() == Handled(old(State()), me.name, BidSplit(original, accepted, residual))
    {
      if accepted.trader.name == me.name {
        bids := bids + [accepted];
        bids := bids + [residual];
        assert bids == old(bids) + [accepted, residual];
      }
    }

    // The market has taken a traded bid out before it announces the trade; one that is still there is
    // deleted, and that deletion is announced.
    method EventBidTraded(market: TwoSidedMarket, trade: Trade)
      requires trade.bid.Some?
      modifies this, market
      ensures State() == Handled(old(State()), me.name, BidTraded(trade))
      ensures market.State() ==
              if trade.buyer.name == me.name then DeleteBid(old(market.State()), trade.bid.value.id).0
              else old(market.State())
      ensures Find(old(market.bids), trade.bid.value.id).None? ==> market.State() == old(market.State())
    {
      if trade.buyer.name == me.name {
        tradedBids := tradedBids + [trade.bid.value];
        RemoveBidFromPending(market, Some(trade.bid.value.id));
      }
    }

    // A listener is told everything and acts on what concerns bids.
    method Handle(market: TwoSidedMarket, e: Event)
      requires e.BidTraded? ==> e.trade.bid.Some?
      modifies this, market
      ensures State() == Handled(old(State()), me.name, e)
      ensures market.State() ==
              if e.BidTraded? && e.trade.buyer.name == me.name
              then DeleteBid(old(market.State()), e.trade.bid.value.id).0
              else old(market.State())
    {
      match e
      case BidSplit(original, accepted, residual) => EventBidSplit(original, accepted, residual);
      case BidTraded(trade) => EventBidTraded(market, trade);
      case BidDeleted(bid) => EventBidDeleted(bid);
      case _ =>
    }

    method RemoveExistingBids(market: TwoSidedMarket, timeSlot: int)
      modifies this, market
      ensures (market.State(), State()) ==
              WithdrawnAll(old(market.State()), old(State()), old(bids), Some(timeSlot))
    {
      var existing := bids;
      ghost var m0, c0 := market.State(), State();
      assert existing[0..] == existing;
      for i := 0 to |existing|
        invariant WithdrawnAll(m0, c0, existing, Some(timeSlot)) ==
                  WithdrawnAll(market.State(), State(), existing[i..], Some(timeSlot))
      {
        assert existing[i..][0] == existing[i] && existing[i..][1..] == existing[i + 1..];
        if InSlot(existing[i], Some(timeSlot)) {
          RemoveBidFromPending(market, Some(existing[i].id));
        }
      }
    }

    method PostBid(market: TwoSidedMarket, price: real, energy: real, replaceExisting: bool, timeSlot: int)
      returns (r: Result<Order>)
      modifies this, market
      ensures (market.State(), State(), r) ==
              Posted(market.cfg, old(market.State()), old(State()), me, price, energy, replaceExisting, timeSlot)
    {
      if replaceExisting {
        RemoveExistingBids(market, timeSlot);
      }
      r := market.Bid(price, energy, me, None, Some(price), true, true, timeSlot);
      if r.Ok? {
        bids := bids + [r.value];
      }
    }

    method UpdateBidRates(market: TwoSidedMarket, rate: real, timeSlot: Option<int>) returns (error: Option<Error>)
      requires forall b :: b in bids ==> b.energy > 0.0
      modifies this, market
      ensures (market.State(), State(), error) ==
              Repriced(market.cfg, old(market.State()), old(State()), me, old(bids), rate, timeSlot)
    {
      var posted := bids;
      ghost var m0, c0 := market.State(), State();
      assert posted[0..] == posted;
      for i := 0 to |posted|
        invariant Repriced(market.cfg, m0, c0, me, posted, rate, timeSlot) ==
                  Repriced(market.cfg, market.State(), State(), me, posted[i..], rate, timeSlot)
      {
        assert posted[i..][0] == posted[i] && posted[i..][1..] == posted[i + 1..];
        var bid := posted[i];
        if InSlot(bid, timeSlot) && NeedsUpdate(bid, rate) {
          RemoveBidFromPending(market, Some(bid.id));
          var r := PostBid(market, PriceAt(bid, rate), bid.energy, false, bid.timeSlot);
          if r.Err? {
            return Some(r.error);
          }
        }
      }
      return None;
    }
  }

  // ----- agreement -----

  lemma WithdrawingKeeps(owner: string, m: Market, c: BidCache, id: nat)
    requires Agree(owner, m, c) && Find(c.bids, id).Some?
    ensures var (m', c') := Withdrawn(m, c, id); Agree(owner, m', c')
  {
    OwnedPop(m.bids, id, owner);
    ValidAfterDeleting(m, id);
    FindIn(c.bids, id);
    OwnedIn(m.bids, owner, Find(c.bids, id).value);
    FindIn(m.bids, id);
  }

  // Withdrawing an id that is gone already, or is the owner's own, never touches another buyer.
  lemma {:induction false} WithdrawingAllKeeps(owner: string, m: Market, c: BidCache, bids: Book, timeSlot: Option<int>)
    requires Agree(owner, m, c) && Distinct(bids) && forall b :: b in bids ==> Find(c.bids, b.id).Some?
    ensures var (m', c') := WithdrawnAll(m, c, bids, timeSlot); Agree(owner, m', c')
    decreases |bids|
  {
    hide Agree;
    if bids != [] {
      OwnIsDistinct(owner, m, c);
      FindIn(bids[1..], bids[0].id);
      AfterPop(c.bids, bids[0].id);
      if InSlot(bids[0], timeSlot) {
        WithdrawingKeeps(owner, m, c, bids[0].id);
        var (m1, c1) := Withdrawn(m, c, bids[0].id);
        WithdrawingAllKeeps(owner, m1, c1, bids[1..], timeSlot);
      } else {
        WithdrawingAllKeeps(owner, m, c, bids[1..], timeSlot);
      }
    }
  }

  lemma {:induction false} OwnedDistinct(b: Book, owner: string)
    requires Distinct(b)
    ensures Distinct(Owned(b, owner))
    ensures forall k :: Find(Owned(b, owner), k).Some? ==> Find(Owned(b, owner), k) == Find(b, k)
  {
    if b != [] {
      OwnedDistinct(b[1..], owner);
      if b[0].trader.name == owner {
        assert ([b[0]] + Owned(b[1..], owner))[1..] == Owned(b[1..], owner);
      } else {
        assert [] + Owned(b[1..], owner) == Owned(b[1..], owner);
      }
    }
  }

  lemma OwnIsDistinct(owner: string, m: Market, c: BidCache)
    requires Agree(owner, m, c)
    ensures Distinct(c.bids)
    ensures forall k :: Find(c.bids, k).Some? ==> Find(c.bids, k).value.energy > 0.0
  {
    OwnedDistinct(m.bids, owner);
  }

  lemma PostingOneKeeps(cfg: Config, m: Market, c: BidCache, me: Trader, price: real, energy: real, timeSlot: int)
    requires Agree(me.name, m, c)
    ensures var (m', c', r) := PostedOne(cfg, m, c, me, price, energy, timeSlot); Agree(me.name, m', c')
  {
    ForeignPostKeeps(cfg, me.name, m, c, price, energy, me, Some(price), timeSlot);
  }

  lemma PostingKeeps(cfg: Config, m: Market, c: BidCache, me: Trader, price: real, energy: real, replaceExisting: bool,
                     timeSlot: int)
    requires Agree(me.name, m, c)
    ensures var (m', c', r) := Posted(cfg, m, c, me, price, energy, replaceExisting, timeSlot); Agree(me.name, m', c')
  {
    OwnIsDistinct(me.name, m, c);
    forall b | b in c.bids ensures Find(c.bids, b.id).Some? { InFind(c.bids, b); }
    WithdrawingAllKeeps(me.name, m, c, c.bids, Some(timeSlot));
    var (m1, c1) := if replaceExisting then WithdrawnAll(m, c, c.bids, Some(timeSlot)) else (m, c);
    PostingOneKeeps(cfg, m1, c1, me, price, energy, timeSlot);
  }

  // Re-pricing keeps the records right even when the market refuses a price half-way: the bid it
  // was about to replace is then gone from both.
  lemma {:induction false} RepricingKeeps(cfg: Config, m: Market, c: BidCache, me: Trader, bids: Book, rate: real,
                                          timeSlot: Option<int>)
    requires Agree(me.name, m, c) && Distinct(bids)
    requires forall b :: b in bids ==> b.energy > 0.0 && Find(c.bids, b.id).Some?
    ensures var (m', c', error) := Repriced(cfg, m, c, me, bids, rate, timeSlot); Agree(me.name, m', c')
    decreases |bids|
  {
    hide Agree, NeedsUpdate;
    if bids != [] {
      var b, rest := bids[0], bids[1..];
      OwnIsDistinct(me.name, m, c);
      FindIn(rest, b.id);
      AfterPop(c.bids, b.id);
      if InSlot(b, timeSlot) && NeedsUpdate(b, rate) {
        WithdrawingKeeps(me.name, m, c, b.id);
        var (m1, c1) := Withdrawn(m, c, b.id);
        PostingOneKeeps(cfg, m1, c1, me, PriceAt(b, rate), b.energy, b.timeSlot);
        var (m2, c2, r) := PostedOne(cfg, m1, c1, me, PriceAt(b, rate), b.energy, b.timeSlot);
        if r.Ok? {
          OwnIsDistinct(me.name, m2, c2);
          forall x | x in rest ensures Find(c2.bids, x.id).Some? {
            StillFound(c1.bids, r.value, x.id);
          }
          RepricingKeeps(cfg, m2, c2, me, rest, rate, timeSlot);
        }
      } else {
        RepricingKeeps(cfg, m, c, me, rest, rate, timeSlot);
      }
    }
  }

  lemma {:induction false} StillFound(b: Book, o: Order, id: nat)
    requires Find(b, id).Some?
    ensures Find(b + [o], id) == Find(b, id)
  {
    assert (b + [o])[1..] == b[1..] + [o];
    if b[0].id != id {
      StillFound(b[1..], o, id);
    }
  }

  // ----- whole runs -----

  datatype System = System(market: Market, records: BidCache)

  datatype Move =
    | Posts(price: real, energy: real, replaceExisting: bool, timeSlot: int)
    | Withdraws(id: nat)
    | WithdrawsAll
    | Reprices(rate: real, slot: Option<int>)
    | OthersAct(action: Action)

  const START := System(EMPTY_MARKET, BidCache([], []))

  // Who may do what: the owner withdraws only what it has posted, and nobody else posts under its
  // name.
  ghost predicate Permitted(me: Trader, s: System, move: Move) {
    match move
    case Posts(_, _, _, _) => true
    case Withdraws(id) => Find(s.records.bids, id).Some?
    case WithdrawsAll => true
    case Reprices(_, _) => true
    case OthersAct(a) => Foreign(me.name, s.market, a)
  }

  // Nobody's action loses a bid of the owner's.
  ghost predicate Harmless(cfg: Config, matcher: Matcher, me: Trader, s: System, move: Move)
    requires Valid(s.market)
  {
    move.OthersAct? ==> !HurtsOwner(StepMishap(cfg, matcher, s.market, move.action), me.name)
  }

  ghost function Moved(cfg: Config, matcher: Matcher, me: Trader, s: System, move: Move): System
    requires Agree(me.name, s.market, s.records)
  {
    match move
    case Posts(price, energy, replace, slot) =>
      var (m', c', _) := Posted(cfg, s.market, s.records, me, price, energy, replace, slot); System(m', c')
    case Withdraws(id) => var (m', c') := Withdrawn(s.market, s.records, id); System(m', c')
    case WithdrawsAll =>
      var (m', c') := WithdrawnAll(s.market, s.records, s.records.bids, None); System(m', c')
    case Reprices(rate, slot) =>
      RecordedCarryEnergy(me.name, s.market, s.records);
      var (m', c', _) := Repriced(cfg, s.market, s.records, me, s.records.bids, rate, slot); System(m', c')
    case OthersAct(a) =>
      var m' := Step(cfg, matcher, s.market, a).0;
      System(m', if |s.market.events| <= |m'.events| then Caught(s.records, me.name, s.market, m') else s.records)
  }

  lemma RecordedCarryEnergy(owner: string, m: Market, c: BidCache)
    requires Agree(owner, m, c)
    ensures forall b :: b in c.bids ==> b.energy > 0.0 && Find(c.bids, b.id).Some?
  {
    OwnIsDistinct(owner, m, c);
    forall b | b in c.bids ensures b.energy > 0.0 && Find(c.bids, b.id).Some? {
      InFind(c.bids, b);
    }
  }

  // A move keeps the agreement if and only if it is harmless, which its starting state tells.
  lemma MoveKeepsAgreementIff(cfg: Config, matcher: Matcher, me: Trader, s: System, move: Move)
    requires Agree(me.name, s.market, s.records) && Valid(s.market) && Permitted(me, s, move)
    ensures var s' := Moved(cfg, matcher, me, s, move);
            Agree(me.name, s'.market, s'.records) <==> Harmless(cfg, matcher, me, s, move)
  {
    hide Step, StepMishap, Agree, Foreign, Valid;
    var m, c := s.market, s.records;
    match move
    case Posts(price, energy, replace, slot) => PostingKeeps(cfg, m, c, me, price, energy, replace, slot);
    case Withdraws(id) => WithdrawingKeeps(me.name, m, c, id);
    case WithdrawsAll =>
      OwnIsDistinct(me.name, m, c);
      RecordedCarryEnergy(me.name, m, c);
      WithdrawingAllKeeps(me.name, m, c, c.bids, None);
    case Reprices(rate, slot) =>
      OwnIsDistinct(me.name, m, c);
      RecordedCarryEnergy(me.name, m, c);
      RepricingKeeps(cfg, m, c, me, c.bids, rate, slot);
    case OthersAct(a) => StepKeepsIff(cfg, matcher, me.name, m, c, a);
  }

  // Every move is permitted and harmless in the state it finds; nothing is asked of these states
  // themselves.
  ghost predicate AllowedRun(cfg: Config, matcher: Matcher, me: Trader, s: System, moves: seq<Move>)
    requires Agree(me.name, s.market, s.records)
    decreases |moves|
  {
    moves == [] ||
    (Permitted(me, s, moves[0]) && Harmless(cfg, matcher, me, s, moves[0]) &&
     (MoveKeepsAgreementIff(cfg, matcher, me, s, moves[0]);
      AllowedRun(cfg, matcher, me, Moved(cfg, matcher, me, s, moves[0]), moves[1..])))
  }

  ghost function SystemAfter(cfg: Config, matcher: Matcher, me: Trader, s: System, moves: seq<Move>): (s': System)
    requires Agree(me.name, s.market, s.records) && AllowedRun(cfg, matcher, me, s, moves)
    ensures Agree(me.name, s'.market, s'.records)
    decreases |moves|
  {
    if moves == [] then s
    else
      MoveKeepsAgreementIff(cfg, matcher, me, s, moves[0]);
      SystemAfter(cfg, matcher, me, Moved(cfg, matcher, me, s, moves[0]), moves[1..])
  }

  // ----- fair and careful runs -----

  // What the others do is fair and careful; the owner may do as it likes.
  ghost predicate Mindful(cfg: Config, matcher: Matcher, m: Market, move: Move) {
    move.OthersAct? ==> FairAction(cfg.fee, m, move.action) && CarefulAction(cfg.fee, matcher, m, move.action)
  }

  ghost predicate MindfulRun(cfg: Config, matcher: Matcher, me: Trader, s: System, moves: seq<Move>)
    requires Agree(me.name, s.market, s.records)
    decreases |moves|
  {
    moves == [] ||
    (Permitted(me, s, moves[0]) && Mindful(cfg, matcher, s.market, moves[0]) &&
     var s' := Moved(cfg, matcher, me, s, moves[0]);
     (Agree(me.name, s'.market, s'.records) ==> MindfulRun(cfg, matcher, me, s', moves[1..])))
  }

  lemma FairAfterWithdrawing(fee: FeeClass, m: Market, c: BidCache, id: nat)
    requires Valid(m) && FairMarket(fee, m)
    ensures Valid(Withdrawn(m, c, id).0) && FairMarket(fee, Withdrawn(m, c, id).0)
  {
    AfterPop(m.bids, id);
    ValidAfterDeleting(m, id);
  }

  lemma {:induction false} FairAfterWithdrawingAll(fee: FeeClass, m: Market, c: BidCache, bids: Book,
                                                   timeSlot: Option<int>)
    requires Valid(m) && FairMarket(fee, m)
    ensures var m' := WithdrawnAll(m, c, bids, timeSlot).0; Valid(m') && FairMarket(fee, m')
    decreases |bids|
  {
    hide FairMarket, Valid;
    if bids != [] {
      FairAfterWithdrawing(fee, m, c, bids[0].id);
      var (m1, c1) := if InSlot(bids[0], timeSlot) then Withdrawn(m, c, bids[0].id) else (m, c);
      FairAfterWithdrawingAll(fee, m1, c1, bids[1..], timeSlot);
    }
  }

  // A bid posted at its original price is fair.
  lemma FairAfterPostingOne(cfg: Config, m: Market, c: BidCache, me: Trader, price: real, energy: real, timeSlot: int)
    requires Valid(m) && FairMarket(cfg.fee, m)
    ensures var m' := PostedOne(cfg, m, c, me, price, energy, timeSlot).0; Valid(m') && FairMarket(cfg.fee, m')
  {
    FairAfterPostBid(cfg, m, price, energy, me, Some(price), timeSlot);
    ValidAfterPostBid(cfg, m, price, energy, me, Some(price), true, true, timeSlot);
  }

  lemma {:induction false} FairAfterRepricing(cfg: Config, m: Market, c: BidCache, me: Trader, bids: Book, rate: real,
                                              timeSlot: Option<int>)
    requires Valid(m) && FairMarket(cfg.fee, m) && forall b :: b in bids ==> b.energy > 0.0
    ensures FairMarket(cfg.fee, Repriced(cfg, m, c, me, bids, rate, timeSlot).0)
    decreases |bids|
  {
    hide FairMarket, Valid, PostedOne, Withdrawn, NeedsUpdate;
    if bids != [] {
      var b := bids[0];
      FairAfterWithdrawing(cfg.fee, m, c, b.id);
      var (m1, c1) := Withdrawn(m, c, b.id);
      FairAfterPostingOne(cfg, m1, c1, me, PriceAt(b, rate), b.energy, b.timeSlot);
      var (m2, c2, r) := PostedOne(cfg, m1, c1, me, PriceAt(b, rate), b.energy, b.timeSlot);
      FairAfterRepricing(cfg, m2, c2, me, bids[1..], rate, timeSlot);
      FairAfterRepricing(cfg, m, c, me, bids[1..], rate, timeSlot);
    }
  }

  lemma FairAfterMove(cfg: Config, matcher: Matcher, me: Trader, s: System, move: Move)
    requires Agree(me.name, s.market, s.records) && FairMarket(cfg.fee, s.market)
    requires Valid(s.market) && Mindful(cfg, matcher, s.market, move)
    ensures FairMarket(cfg.fee, Moved(cfg, matcher, me, s, move).market) && Harmless(cfg, matcher, me, s, move)
  {
    hide FairMarket, Valid, Agree, FairAction, CarefulAction, Step, StepMishap, PostedOne, Repriced, WithdrawnAll;
    match move
    case Posts(price, energy, replace, slot) =>
      FairAfterWithdrawingAll(cfg.fee, s.market, s.records, s.records.bids, Some(slot));
      var (m1, c1) := if replace then WithdrawnAll(s.market, s.records, s.records.bids, Some(slot))
                      else (s.market, s.records);
      FairAfterPostingOne(cfg, m1, c1, me, price, energy, slot);
    case Withdraws(id) => FairAfterWithdrawing(cfg.fee, s.market, s.records, id);
    case WithdrawsAll => FairAfterWithdrawingAll(cfg.fee, s.market, s.records, s.records.bids, None);
    case Reprices(rate, slot) =>
      RecordedCarryEnergy(me.name, s.market, s.records);
      FairAfterRepricing(cfg, s.market, s.records, me, s.records.bids, rate, slot);
    case OthersAct(a) => FairStepStrandsNothing(cfg, matcher, s.market, a);
  }

  // Where the others only do what is fair and careful, every permitted run is allowed: whether it
  // keeps the agreement can be told without looking at the outcome of any step.
  lemma {:induction false} MindfulRunsAreAllowed(cfg: Config, matcher: Matcher, me: Trader, s: System, moves: seq<Move>)
    requires Agree(me.name, s.market, s.records) && FairMarket(cfg.fee, s.market)
    requires MindfulRun(cfg, matcher, me, s, moves)
    ensures AllowedRun(cfg, matcher, me, s, moves)
    decreases |moves|
  {
    hide Moved, Agree, Permitted, Harmless, Mindful, FairMarket, Valid;
    if moves != [] {
      AgreeIsValid(me.name, s.market, s.records);
      FairAfterMove(cfg, matcher, me, s, moves[0]);
      MoveKeepsAgreementIff(cfg, matcher, me, s, moves[0]);
      MindfulRunsAreAllowed(cfg, matcher, me, Moved(cfg, matcher, me, s, moves[0]), moves[1..]);
    }
  }

  // In every reachable state the recorded bids are the market's open bids of that buyer, order by
  // order and in the market's order; in particular no id is recorded twice.
  lemma RecordsAgreeInEveryRun(cfg: Config, matcher: Matcher, me: Trader, moves: seq<Move>)
    requires AllowedRun(cfg, matcher, me, START, moves)
    ensures var s := SystemAfter(cfg, matcher, me, START, moves);
            && s.records.bids == Owned(s.market.bids, me.name)
            && Distinct(s.records.bids)
            && (forall id :: Find(s.records.bids, id).Some? <==>
                  Find(s.market.bids, id).Some? && Find(s.market.bids, id).value.trader.name == me.name)
  {
    hide Moved, AllowedRun;
    var s := SystemAfter(cfg, matcher, me, START, moves);
    OwnedDistinct(s.market.bids, me.name);
    forall id ensures Find(s.records.bids, id).Some? <==>
                        Find(s.market.bids, id).Some? && Find(s.market.bids, id).value.trader.name == me.name
    {
      FindIn(s.market.bids, id);
      FindIn(s.records.bids, id);
      if Find(s.market.bids, id).Some? {
        OwnedIn(s.market.bids, me.name, Find(s.market.bids, id).value);
      }
      if Find(s.records.bids, id).Some? {
        OwnedIn(s.market.bids, me.name, Find(s.records.bids, id).value);
      }
    }
  }
}
