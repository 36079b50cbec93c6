/** Runs of a strategy's own moves and of other traders' actions: when its offer records agree with the
    market throughout, and what they know of what was sold. */
module OwnerRuns {
  import opened Numeric
  import opened Books
  import opened Fees
  import opened MarketState
  import opened Acceptance
  import opened MatchingEngine
  import opened Runs
  import opened Mishaps
  import opened FairMarkets
  import opened StrategyOffers
  import opened OfferCoherence
  import opened OwnerMoves

  // ----- whole runs -----

  // The market, the strategy's records and the offers it has yet to record.
  datatype System = System(market: Market, records: Cache, pending: map<nat, Order>)

  datatype Move =
    | Posts(price: real, energy: real, originalPrice: Option<real>, replaceExisting: bool, timeSlot: int)
    | Records(id: nat)
    | Withdraws(id: nat)
    | WithdrawsOpen
    | Reprices(rate: real, slot: Option<int>)
    | OthersAct(action: Action)

  const START := System(EMPTY_MARKET, Cache([], [], map[]), map[])

  // Who may do what: the owner's offers are posted and deleted by its strategy alone, which records
  // what the market has taken and withdraws what it has posted.
  ghost predicate Permitted(me: Trader, s: System, move: Move) {
    match move
    case Posts(_, _, _, _, _) => true
    case Records(id) => id in s.pending
    case Withdraws(id) => Find(s.records.posted, id).Some?
    case WithdrawsOpen => true
    case Reprices(_, _) => true
    case OthersAct(a) => Foreign(me.name, s.market, a)
  }

  // The market accepts the rate asked for, and nobody's action strands a residual of the owner's.
  ghost predicate Harmless(cfg: Config, matcher: Matcher, me: Trader, s: System, move: Move)
    requires Valid(s.market)
  {
    match move
    case Reprices(rate, slot) => s.market.readonly || UpdateIsSafe(cfg.fee, s.records, s.records.posted, rate, slot)
    case OthersAct(a) => !HurtsOwner(StepMishap(cfg, matcher, s.market, a), me.name)
    case _ => true
  }

  function CaughtUpTo(me: Trader, s: System, m': Market): System {
    s.(market := m',
       records := if |s.market.events| <= |m'.events| then Caught(s.records, me.name, s.market, m') else s.records)
  }

  function Moved(cfg: Config, matcher: Matcher, me: Trader, s: System, move: Move): System
    requires Valid(s.market)
  {
    match move
    case Posts(price, energy, original, replace, slot) =>
      var (m1, c1, error) := Cleared(s.market, s.records, replace, slot);
      if error.Some? then s.(market := m1, records := c1)
      else
        var (m', r) := PostOffer(cfg, m1, price, energy, me, None, original, true, true, slot);
        System(m', c1, if r.Ok? then s.pending[r.value.id := r.value] else s.pending)
    case Records(id) =>
      if id in s.pending then s.(records := Posted(s.records, s.pending[id]), pending := s.pending - {id}) else s
    case Withdraws(id) => var (m', c') := Withdrawn(s.market, s.records, id); s.(market := m', records := c')
    case WithdrawsOpen =>
      var (m', c', _) := WithdrawnAll(s.market, s.records, ToDelete(s.records, None));
      s.(market := m', records := c')
    case Reprices(rate, slot) =>
      var (m', c') := UpdatedAll(cfg, s.market, s.records, me, s.records.posted, rate, slot);
      s.(market := m', records := c')
    case OthersAct(a) => CaughtUpTo(me, s, Step(cfg, matcher, s.market, a).0)
  }

  ghost predicate Agrees(me: Trader, s: System) {
    && Coherent(me.name, s.market, s.records, s.pending)
    && (forall id :: id in s.pending ==> s.pending[id].id == id)
  }

  lemma ReadonlyUpdateIsIdle(cfg: Config, m: Market, c: Cache, me: Trader, orders: Book, rate: real, slot: Option<int>)
    requires m.readonly
    ensures UpdatedAll(cfg, m, c, me, orders, rate, slot) == (m, c)
    decreases |orders|
  {
    if orders != [] {
      assert Updated(cfg, m, c, me, orders[0], rate) == (m, c);
      ReadonlyUpdateIsIdle(cfg, m, c, me, orders[1..], rate, slot);
    }
  }

  // A move keeps the agreement if and only if it is harmless, which its starting state tells.
  lemma MoveKeepsAgreementIff(cfg: Config, matcher: Matcher, me: Trader, s: System, move: Move)
    requires Agrees(me, s) && Valid(s.market) && Permitted(me, s, move)
    ensures Agrees(me, Moved(cfg, matcher, me, s, move)) <==> Harmless(cfg, matcher, me, s, move)
  {
    hide PostOffer, UpdatedAll, Step, StepMishap, Coherent, Valid, UpdateIsSafe, Withdrawn, WithdrawnAll, Cleared,
         ToDelete, HandledAll, Foreign;
    var m, c, pending := s.market, s.records, s.pending;
    match move
    case Posts(price, energy, original, replace, slot) =>
      ClearingKeepsIff(me.name, m, c, pending, replace, slot);
      var (m1, c1, error) := Cleared(m, c, replace, slot);
      if error.None? {
        PostedIsAwaited(cfg, me.name, m1, c1, pending, price, energy, me, original, slot);
        PostedId(cfg, m1, price, energy, me, original, slot);
      }
    case Records(id) => RecordingKeeps(me.name, m, c, pending, id);
    case Withdraws(id) => WithdrawingKeeps(me.name, m, c, pending, id);
    case WithdrawsOpen =>
      AllPosted(me.name, m, c, pending);
      ToDeleteIsPosted(c, None);
      WithdrawingAllKeeps(me.name, m, c, pending, ToDelete(c, None));
    case Reprices(rate, slot) =>
      if m.readonly {
        ReadonlyUpdateIsIdle(cfg, m, c, me, c.posted, rate, slot);
      } else {
        AllPosted(me.name, m, c, pending);
        UpdatingAllKeepsIff(cfg, m, c, pending, me, c.posted, rate, slot);
      }
    case OthersAct(a) => StepKeepsIff(cfg, matcher, me.name, m, c, pending, a);
  }

  lemma PostedId(cfg: Config, m: Market, price: real, energy: real, seller: Trader, originalPrice: Option<real>,
                 timeSlot: int)
    ensures var r := PostOffer(cfg, m, price, energy, seller, None, originalPrice, true, true, timeSlot).1;
            r.Ok? ==> r.value.id == m.nextId
  {
    hide OfferPriceWithFee;
  }

  // Every move is permitted and harmless in the state it finds; nothing is asked of these states
  // themselves.
  ghost predicate AllowedRun(cfg: Config, matcher: Matcher, me: Trader, s: System, moves: seq<Move>)
    requires Agrees(me, s)
    decreases |moves|
  {
    moves == [] ||
    (Permitted(me, s, moves[0]) && Harmless(cfg, matcher, me, s, moves[0]) &&
     (MoveKeepsAgreementIff(cfg, matcher, me, s, moves[0]);
      AllowedRun(cfg, matcher, me, Moved(cfg, matcher, me, s, moves[0]), moves[1..])))
  }

  ghost function SystemAfter(cfg: Config, matcher: Matcher, me: Trader, s: System, moves: seq<Move>): (s': System)
    requires Agrees(me, s) && AllowedRun(cfg, matcher, me, s, moves)
    ensures Agrees(me, s')
    decreases |moves|
  {
    if moves == [] then s
    else
      MoveKeepsAgreementIff(cfg, matcher, me, s, moves[0]);
      SystemAfter(cfg, matcher, me, Moved(cfg, matcher, me, s, moves[0]), moves[1..])
  }

  // ----- fair runs -----

  // Nothing is asked with constant fees; otherwise postings, and what the others do, are fair. The
  // rates the owner asks for are accepted by the market.
  ghost predicate Mindful(cfg: Config, me: Trader, m: Market, move: Move) {
    match move
    case Posts(price, energy, original, _, slot) =>
      FairAction(cfg.fee, m, PostsOffer(price, energy, me, original, slot))
    case Reprices(rate, _) =>
      RateIsAccepted(cfg.fee, rate) && (cfg.fee.ConstantFee? || (rate >= 0.0 && cfg.fee.rate >= 0.0))
    case OthersAct(a) => FairAction(cfg.fee, m, a)
    case _ => true
  }

  ghost predicate MindfulRun(cfg: Config, matcher: Matcher, me: Trader, s: System, moves: seq<Move>)
    requires Agrees(me, s)
    decreases |moves|
  {
    moves == [] ||
    (Permitted(me, s, moves[0]) && Mindful(cfg, me, s.market, moves[0]) &&
     (Agrees(me, Moved(cfg, matcher, me, s, moves[0])) ==>
        MindfulRun(cfg, matcher, me, Moved(cfg, matcher, me, s, moves[0]), moves[1..])))
  }

  lemma FairAfterReposting(cfg: Config, m: Market, me: Trader, o: Order, rate: real)
    requires Valid(m) && FairMarket(cfg.fee, m)
    requires cfg.fee.PercentageFee? ==> rate >= 0.0 && cfg.fee.rate >= 0.0
    ensures FairMarket(cfg.fee, Reposted(cfg, m, me, o, PriceAt(o, rate)).0)
  {
    var price, seller := PriceAt(o, rate), me.(originUuid := o.trader.originUuid);
    if o.energy >= TOL {
      assert cfg.fee.PercentageFee? ==> price >= 0.0;
      FairAfterPostOffer(cfg, m, price, o.energy, seller, Some(price), o.timeSlot);
    }
  }

  lemma FairAfterUpdate(cfg: Config, m: Market, c: Cache, me: Trader, o: Order, rate: real)
    requires Valid(m) && FairMarket(cfg.fee, m)
    requires cfg.fee.PercentageFee? ==> rate >= 0.0 && cfg.fee.rate >= 0.0
    ensures var m' := Updated(cfg, m, c, me, o, rate).0; Valid(m') && FairMarket(cfg.fee, m')
  {
    hide Reposted;
    UpdatedIsValid(cfg, m, c, me, o, rate);
    AfterPop(m.offers, o.id);
    ValidAfterDeleting(m, o.id);
    FairAfterReposting(cfg, DeleteOffer(m, o.id).0, me, o, rate);
  }

  lemma {:induction false} FairAfterUpdates(cfg: Config, m: Market, c: Cache, me: Trader, orders: Book, rate: real,
                                            timeSlot: Option<int>)
    requires Valid(m) && FairMarket(cfg.fee, m)
    requires cfg.fee.PercentageFee? ==> rate >= 0.0 && cfg.fee.rate >= 0.0
    ensures FairMarket(cfg.fee, UpdatedAll(cfg, m, c, me, orders, rate, timeSlot).0)
    decreases |orders|
  {
    hide FairMarket, Valid, Updated;
    if orders != [] {
      FairAfterUpdate(cfg, m, c, me, orders[0], rate);
      var (m1, c1) := if InSlot(orders[0], timeSlot) then Updated(cfg, m, c, me, orders[0], rate) else (m, c);
      FairAfterUpdates(cfg, m1, c1, me, orders[1..], rate, timeSlot);
    }
  }

  lemma FairAfterMove(cfg: Config, matcher: Matcher, me: Trader, s: System, move: Move)
    requires Valid(s.market) && FairMarket(cfg.fee, s.market) && Mindful(cfg, me, s.market, move)
    ensures FairMarket(cfg.fee, Moved(cfg, matcher, me, s, move).market)
  {
    hide FairMarket, Valid, Step, StepMishap, UpdatedAll, HandledAll, PostOffer, WithdrawnAll, ToDelete;
    match move
    case Posts(price, energy, original, replace, slot) =>
      var orders := if replace then PostedIn(s.records.posted, slot) else [];
      FairAfterWithdrawingAll(cfg.fee, s.market, s.records, orders);
      FairAfterPostOffer(cfg, Cleared(s.market, s.records, replace, slot).0, price, energy, me, original, slot);
    case Records(_) =>
    case Withdraws(id) => FairAfterWithdrawing(cfg.fee, s.market, s.records, id);
    case WithdrawsOpen => FairAfterWithdrawingAll(cfg.fee, s.market, s.records, ToDelete(s.records, None));
    case Reprices(rate, slot) => FairAfterUpdates(cfg, s.market, s.records, me, s.records.posted, rate, slot);
    case OthersAct(a) => FairStepStrandsNothing(cfg, matcher, s.market, a);
  }

  lemma FairAfterWithdrawing(fee: FeeClass, m: Market, c: Cache, id: nat)
    requires Valid(m) && FairMarket(fee, m)
    ensures FairMarket(fee, Withdrawn(m, c, id).0)
  {
    AfterPop(m.offers, id);
  }

  lemma {:induction false} FairAfterWithdrawingAll(fee: FeeClass, m: Market, c: Cache, orders: Book)
    requires Valid(m) && FairMarket(fee, m)
    ensures var m' := WithdrawnAll(m, c, orders).0; Valid(m') && FairMarket(fee, m')
    ensures orders == [] ==> WithdrawnAll(m, c, orders).0 == m
    decreases |orders|
  {
    hide FairMarket, Valid;
    if orders != [] {
      ValidAfterDeleting(m, orders[0].id);
      FairAfterWithdrawing(fee, m, c, orders[0].id);
      FairAfterWithdrawingAll(fee, DeleteOffer(m, orders[0].id).0, Removed(c, orders[0].id), orders[1..]);
    }
  }

  lemma MindfulMoveIsHarmless(cfg: Config, matcher: Matcher, me: Trader, s: System, move: Move)
    requires Valid(s.market) && Mindful(cfg, me, s.market, move)
    requires cfg.fee.ConstantFee? || FairMarket(cfg.fee, s.market)
    ensures Harmless(cfg, matcher, me, s, move)
  {
    hide FairMarket, Valid, Step, StepMishap, FairAction, RateIsAccepted;
    if move.OthersAct? {
      FairStepStrandsNothing(cfg, matcher, s.market, move.action);
    }
  }

  // With constant fees, and in fair markets where only what is fair is done, every permitted run is
  // allowed: whether it keeps the agreement can be told without looking at the outcome of any step.
  lemma {:induction false} MindfulRunsAreAllowed(cfg: Config, matcher: Matcher, me: Trader, s: System, moves: seq<Move>)
    requires Agrees(me, s) && MindfulRun(cfg, matcher, me, s, moves)
    requires cfg.fee.ConstantFee? || FairMarket(cfg.fee, s.market)
    ensures AllowedRun(cfg, matcher, me, s, moves)
    decreases |moves|
  {
    hide Moved, Agrees, Permitted, Harmless, Mindful, FairMarket, Valid;
    if moves != [] {
      AgreesIsValid(me, s);
      MindfulMoveIsHarmless(cfg, matcher, me, s, moves[0]);
      MoveKeepsAgreementIff(cfg, matcher, me, s, moves[0]);
      if FairMarket(cfg.fee, s.market) {
        FairAfterMove(cfg, matcher, me, s, moves[0]);
      }
      MindfulRunsAreAllowed(cfg, matcher, me, Moved(cfg, matcher, me, s, moves[0]), moves[1..]);
    }
  }

  lemma AgreesIsValid(me: Trader, s: System)
    requires Agrees(me, s)
    ensures Valid(s.market)
  {
  }

  // In every reachable state in which nothing waits to be recorded, the offers the records call
  // open are exactly the owner's open offers in the market. The market's sold energy of the owner is
  // the energy the records call sold, up to TOL per trade, and what was sold to open bids directly,
  // of which the records know nothing: they agree exactly if there was no such trade.
  lemma RecordsAgreeInEveryRun(cfg: Config, matcher: Matcher, me: Trader, moves: seq<Move>)
    requires AllowedRun(cfg, matcher, me, START, moves)
    ensures var s := SystemAfter(cfg, matcher, me, START, moves);
            && (s.pending == map[] ==>
                  forall id :: IsOpen(s.records, id) <==> OwnOpen(s.market, me.name, id))
            && (forall id :: IsOpen(s.records, id) ==> Find(s.records.posted, id) == Find(s.market.offers, id))
            && Abs(Energy(s.records.sold) + SoldToBids(me.name, s.market.trades) - SoldEnergy(me.name, s.market.trades))
                 <= Times(|s.records.sold|, TOL)
            && SoldToBids(me.name, s.market.trades) >= 0.0
            && (SoldToBids(me.name, s.market.trades) == 0.0 <==>
                  forall t :: t in s.market.trades && t.seller.name == me.name ==> t.offer.Some?)
  {
    hide Moved, AllowedRun;
    var s := SystemAfter(cfg, matcher, me, START, moves);
    SoldEnergyBound(me.name, s.market.trades);
    SoldToBidsSign(me.name, s.market.trades);
  }

  // `sold_energy` of the market: all booked trades of the seller.
  function SoldEnergy(owner: string, trades: seq<Trade>): real {
    if trades == [] then 0.0
    else
      var t, rest := trades[|trades| - 1], SoldEnergy(owner, trades[..|trades| - 1]);
      if t.seller.name == owner then rest + t.tradedEnergy else rest
  }

  // Those in which the seller accepted a bid without ever posting an offer.
  function SoldToBids(owner: string, trades: seq<Trade>): real {
    if trades == [] then 0.0
    else
      var t, rest := trades[|trades| - 1], SoldToBids(owner, trades[..|trades| - 1]);
      if t.seller.name == owner && t.offer.None? then rest + t.tradedEnergy else rest
  }

  lemma {:induction false} SoldToBidsSign(owner: string, trades: seq<Trade>)
    requires SmallRounding(trades)
    ensures SoldToBids(owner, trades) >= 0.0
    ensures SoldToBids(owner, trades) == 0.0 <==> forall t :: t in trades && t.seller.name == owner ==> t.offer.Some?
  {
    if trades != [] {
      var rest, t := trades[..|trades| - 1], trades[|trades| - 1];
      assert trades == rest + [t];
      SoldToBidsSign(owner, rest);
    }
  }

  lemma RunOfTwo(cfg: Config, matcher: Matcher, me: Trader, s: System, first: Move, second: Move)
    requires Agrees(me, s) && Permitted(me, s, first) && Harmless(cfg, matcher, me, s, first)
    requires var s1 := Moved(cfg, matcher, me, s, first);
             Valid(s1.market) && Permitted(me, s1, second) && Harmless(cfg, matcher, me, s1, second)
    ensures AllowedRun(cfg, matcher, me, s, [first, second])
    ensures SystemAfter(cfg, matcher, me, s, [first, second]) ==
            Moved(cfg, matcher, me, Moved(cfg, matcher, me, s, first), second)
  {
    hide Moved, Agrees, Permitted, Harmless, Valid;
    AgreesIsValid(me, s);
    var s1 := Moved(cfg, matcher, me, s, first);
    MoveKeepsAgreementIff(cfg, matcher, me, s, first);
    MoveKeepsAgreementIff(cfg, matcher, me, s1, second);
    assert [first, second][1..] == [second] && [second][1..] == [];
    assert AllowedRun(cfg, matcher, me, s1, [second]);
    assert SystemAfter(cfg, matcher, me, s1, [second]) == Moved(cfg, matcher, me, s1, second);
  }

  // ----- a refused rate -----

  const REFUSED_RATE: seq<Move> := [Posts(1.0, 1.0, None, false, 0), Records(0), Reprices(-1.0, None)]

  lemma UnitOfferIsPosted(me: Trader)
    ensures var (m, r) := PostOffer(NO_FEES, EMPTY_MARKET, 1.0, 1.0, me, None, None, true, true, 0);
            r == Ok(UnitBid(me)) && m.offers == [UnitBid(me)] && !m.readonly && Valid(m)
  {
    hide OfferPriceWithFee, Valid;
    EmptyIsValid();
    UnitPrices();
    ValidAfterPostOffer(NO_FEES, EMPTY_MARKET, 1.0, 1.0, me, None, true, true, 0);
  }

  lemma UnitPrices()
    ensures OfferPriceWithFee(ConstantFee(0.0), 1.0, 1.0, 1.0) == 1.0
    ensures OfferPriceWithFee(ConstantFee(0.0), -1.0, -1.0, 1.0) == -1.0
  {
  }

  lemma EmptyIsValid()
    ensures Valid(EMPTY_MARKET)
  {
  }

  lemma UnitOfferIsRecorded(matcher: Matcher, me: Trader)
    ensures var s1 := Moved(NO_FEES, matcher, me, START, REFUSED_RATE[0]);
            && Valid(s1.market) && Permitted(me, s1, REFUSED_RATE[1])
            && Harmless(NO_FEES, matcher, me, s1, REFUSED_RATE[1])
            && var s2 := Moved(NO_FEES, matcher, me, s1, REFUSED_RATE[1]);
            && Valid(s2.market) && s2.market.offers == [UnitBid(me)] && !s2.market.readonly
            && s2.records == Cache([UnitBid(me)], [], map[]) && s2.pending == map[]
  {
    hide PostOffer, OffersValid, BidsValid, UpdatedAll, WithdrawnAll, Step, StepMishap;
    EmptyIsValid();
    UnitOfferIsPosted(me);
    var s1 := Moved(NO_FEES, matcher, me, START, REFUSED_RATE[0]);
    assert s1.pending == map[0 := UnitBid(me)];
  }

  lemma RefusedUpdate(m: Market, c: Cache, me: Trader)
    requires m.offers == [UnitBid(me)] && !m.readonly
    ensures var (m', c') := Updated(NO_FEES, m, c, me, UnitBid(me), -1.0); m'.offers == [] && c' == c
  {
    hide OfferPriceWithFee, Replaced;
    var o := UnitBid(me);
    assert Find(m.offers, 0) == Some(o) && Pop(m.offers, 0) == [];
    assert PriceAt(o, -1.0) == -1.0 && NeedsUpdate(o, -1.0);
    UnitPrices();
  }

  lemma RefusedRate(m: Market, c: Cache, me: Trader)
    requires m.offers == [UnitBid(me)] && !m.readonly && c == Cache([UnitBid(me)], [], map[])
    ensures var (m', c') := UpdatedAll(NO_FEES, m, c, me, c.posted, -1.0, None); m'.offers == [] && c' == c
  {
    hide Updated;
    assert [UnitBid(me)][1..] == [];
    RefusedUpdate(m, c, me);
    var (m', c') := Updated(NO_FEES, m, c, me, UnitBid(me), -1.0);
    assert UpdatedAll(NO_FEES, m', c', me, [], -1.0, None) == (m', c');
  }

  // It happens: a rate below zero is asked for, and the offer is open in the records alone.
  lemma RefusedRateHappens(matcher: Matcher, me: Trader)
    ensures AllowedRun(NO_FEES, matcher, me, START, REFUSED_RATE[..2])
    ensures var s2 := SystemAfter(NO_FEES, matcher, me, START, REFUSED_RATE[..2]);
            && Valid(s2.market) && Permitted(me, s2, REFUSED_RATE[2])
            && var s := Moved(NO_FEES, matcher, me, s2, REFUSED_RATE[2]);
            IsOpen(s.records, 0) && s.market.offers == [] && !Agrees(me, s)
  {
    hide Moved, Agrees, UpdatedAll;
    StartAgrees(me);
    UnitOfferIsRecorded(matcher, me);
    var first, second := REFUSED_RATE[0], REFUSED_RATE[1];
    assert REFUSED_RATE[..2] == [first, second];
    RunOfTwo(NO_FEES, matcher, me, START, first, second);
    var s2 := SystemAfter(NO_FEES, matcher, me, START, [first, second]);
    RefusedRate(s2.market, s2.records, me);
    RepricedSystem(matcher, me, s2);
    NothingOpenDisagrees(me, Moved(NO_FEES, matcher, me, s2, REFUSED_RATE[2]));
  }

  lemma RepricedSystem(matcher: Matcher, me: Trader, s: System)
    requires Valid(s.market)
    ensures var (m', c') := UpdatedAll(NO_FEES, s.market, s.records, me, s.records.posted, -1.0, None);
            Moved(NO_FEES, matcher, me, s, REFUSED_RATE[2]) == s.(market := m', records := c')
  {
  }

  lemma NothingOpenDisagrees(me: Trader, s: System)
    requires IsOpen(s.records, 0) && s.market.offers == []
    ensures !Agrees(me, s)
  {
    assert !OwnOpen(s.market, me.name, 0);
  }

  // ----- energy sold to bids -----

  const NO_FEES := Config(ConstantFee(0.0), false, false, false)
  const INFO := TradeInfo(1.0, 1.0, 1.0, 1.0, 1.0)

  function UnitBid(buyer: Trader): Order {
    Order(0, 1.0, 1.0, 1.0, buyer, 0)
  }

  ghost predicate OneBidOpen(m: Market, buyer: Trader) {
    Valid(m) && m.bids == [UnitBid(buyer)] && m.trades == []
  }

  lemma BidIsPosted(matcher: Matcher, buyer: Trader)
    ensures OneBidOpen(Step(NO_FEES, matcher, EMPTY_MARKET, PostsBid(1.0, 1.0, buyer, None, 0)).0, buyer)
  {
    ValidAfterStep(NO_FEES, matcher, EMPTY_MARKET, PostsBid(1.0, 1.0, buyer, None, 0));
  }

  lemma BidIsTaken(matcher: Matcher, me: Trader, buyer: Trader, m: Market)
    requires OneBidOpen(m, buyer)
    ensures var m' := Step(NO_FEES, matcher, m, AcceptsBid(UnitBid(buyer), None, me, INFO)).0;
            && |m'.trades| == 1 && m'.trades[0].seller == me && m'.trades[0].offer.None?
            && m'.trades[0].tradedEnergy == 1.0
  {
    assert Find(m.bids, 0) == Some(UnitBid(buyer)) && Pop(m.bids, 0) == [];
    BidAcceptedIff(NO_FEES, m, UnitBid(buyer), None, me, INFO, None);
    hide AcceptBid, TradePriceAndFees;
    AcceptedBidEffect(NO_FEES, m, UnitBid(buyer), None, me, INFO, None);
  }

  // It happens: a bid accepted in the owner's name is sold energy that its records do not have.
  lemma SoldToBidsHappens(matcher: Matcher, me: Trader, buyer: Trader)
    ensures var moves := [OthersAct(PostsBid(1.0, 1.0, buyer, None, 0)),
                          OthersAct(AcceptsBid(UnitBid(buyer), None, me, INFO))];
            && AllowedRun(NO_FEES, matcher, me, START, moves)
            && var s := SystemAfter(NO_FEES, matcher, me, START, moves);
               SoldEnergy(me.name, s.market.trades) == 1.0 && s.records.sold == []
  {
    hide Step, Caught, Agrees, Coherent, OneBidOpen;
    var posts, accepts := PostsBid(1.0, 1.0, buyer, None, 0), AcceptsBid(UnitBid(buyer), None, me, INFO);
    StartAgrees(me);
    BidIsPosted(matcher, buyer);
    var s1 := Moved(NO_FEES, matcher, me, START, OthersAct(posts));
    OneBidIsValid(s1.market, buyer);
    BidMishapStrandsNothing(NO_FEES, s1.market, UnitBid(buyer), None, INFO);
    RunOfTwo(NO_FEES, matcher, me, START, OthersAct(posts), OthersAct(accepts));
    BidIsTaken(matcher, me, buyer, s1.market);
    var s := Moved(NO_FEES, matcher, me, s1, OthersAct(accepts));
    AgreesOnSold(me, s);
    assert s.market.trades[..0] == [];
  }

  lemma StartAgrees(me: Trader)
    ensures Agrees(me, START)
  {
  }

  lemma OneBidIsValid(m: Market, buyer: Trader)
    requires OneBidOpen(m, buyer)
    ensures Valid(m)
  {
  }

  lemma AgreesOnSold(me: Trader, s: System)
    requires Agrees(me, s)
    ensures s.records.sold == SoldOrders(me.name, s.market.trades)
  {
  }

  lemma {:induction false} EnergyOfMore(b: Book, o: Order)
    ensures Energy(b + [o]) == Energy(b) + o.energy
  {
    if b == [] {
      assert b + [o] == [o];
    } else {
      assert (b + [o])[1..] == b[1..] + [o];
      EnergyOfMore(b[1..], o);
    }
  }

  lemma {:induction false} SoldEnergyBound(owner: string, trades: seq<Trade>)
    requires SmallRounding(trades)
    ensures var sold := SoldOrders(owner, trades);
            Abs(Energy(sold) + SoldToBids(owner, trades) - SoldEnergy(owner, trades)) <= Times(|sold|, TOL)
  {
    if trades != [] {
      var rest, t := trades[..|trades| - 1], trades[|trades| - 1];
      assert t in trades;
      SoldEnergyBound(owner, rest);
      if t.seller.name == owner && t.offer.Some? {
        EnergyOfMore(SoldOrders(owner, rest), t.offer.value);
      }
    }
  }
}
