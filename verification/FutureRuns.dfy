/** Whole runs of a future or forward market: trading in between cycles of a clock that never
    goes back, each of which rotates the slots and opens new ones. */
module FutureRuns {
  import opened Books
  import opened MarketState
  import opened MatchingEngine
  import opened Runs
  import opened Mishaps
  import opened FairMarkets
  import opened FutureOrders
  import opened FutureSlots
  import opened MarketRotation
  import opened FutureTrading

  datatype Rotator = FutureRotator | ForwardRotator

  // Everything about a market that does not change in a run.
  datatype Setting = Setting(
    cfg: Config, matcher: Matcher, block: Block, rotator: Rotator, inSimulation: int -> bool)

  datatype Future = Future(
    market: Market, offerSlots: map<int, Book>, bidSlots: map<int, Book>, info: seq<SlotParams>, clock: int)

  // Trading, or a cycle: `gate` says whether the forward rotator finds it time to rotate.
  datatype Move = Trades(action: Action) | Cycles(now: int, gate: bool)

  function SlotsOf(f: Future): Slots {
    Slots(Indexed(f.market.offers, f.offerSlots), Indexed(f.market.bids, f.bidSlots), f.market.trades, f.info,
          f.market.events)
  }

  function WithSlotsOf(f: Future, s: Slots): Future {
    f.(market := f.market.(offers := s.offers.data, bids := s.bids.data, trades := s.trades, events := s.events),
       offerSlots := s.offers.slots, bidSlots := s.bids.slots, info := s.info)
  }

  ghost function RotatedBy(st: Setting, s: Slots, now: int, gate: bool): Slots {
    match st.rotator
    case FutureRotator => SlotsKept(s, Later(now))
    case ForwardRotator => if gate then Rotated(s, now) else s
  }

  ghost function Cycled(st: Setting, s: Slots, now: int, gate: bool): Slots
    requires WellFormed(st.block)
  {
    SlotsOpened(RotatedBy(st, s, now, gate), st.block, st.inSimulation, now)
  }

  // Orders are for open slots, and the clock never goes back.
  ghost predicate Permitted(f: Future, move: Move) {
    match move
    case Trades(a) => Orderly(f.market, f.bidSlots.Keys, a)
    case Cycles(now, _) => f.clock <= now
  }

  // Nobody's action strands a residual.
  ghost predicate Harmless(st: Setting, f: Future, move: Move)
    requires Valid(f.market)
  {
    move.Trades? ==> !StepMishap(st.cfg, st.matcher, f.market, move.action).StrandedResidual?
  }

  ghost predicate Allowed(st: Setting, f: Future, move: Move)
    requires Valid(f.market)
  {
    Permitted(f, move) && Harmless(st, f, move)
  }

  ghost predicate IndexAgrees(f: Future) {
    Valid(f.market) && SlotsCoherent(SlotsOf(f))
  }

  ghost function Moved(st: Setting, f: Future, move: Move): Future
    requires WellFormed(st.block) && IndexAgrees(f) && Allowed(st, f, move)
  {
    match move
    case Trades(a) =>
      TradingPlays(st, f, a);
      var ops := StepOps(st.cfg, st.matcher, f.market, a);
      f.(market := Step(st.cfg, st.matcher, f.market, a).0,
         offerSlots := PlayedIndexed(SlotsOf(f).offers, ops.onOffers).slots,
         bidSlots := PlayedIndexed(SlotsOf(f).bids, ops.onBids).slots)
    case Cycles(now, gate) => WithSlotsOf(f, Cycled(st, SlotsOf(f), now, gate)).(clock := now)
  }

  // ----- a move keeps the dictionaries, the slot lists and the trades together -----

  lemma KnownSlots(f: Future)
    requires IndexAgrees(f)
    ensures SlotsKnown(f.market, f.bidSlots.Keys) && f.offerSlots.Keys == f.bidSlots.Keys
  {
  }

  lemma TradingPlays(st: Setting, f: Future, a: Action)
    requires IndexAgrees(f) && Allowed(st, f, Trades(a))
    ensures var ops := StepOps(st.cfg, st.matcher, f.market, a);
            var m' := Step(st.cfg, st.matcher, f.market, a).0;
            var offers, bids := SlotsOf(f).offers, SlotsOf(f).bids;
            && Plays(offers, ops.onOffers) && Plays(bids, ops.onBids)
            && Coherent(PlayedIndexed(offers, ops.onOffers)) && Coherent(PlayedIndexed(bids, ops.onBids))
            && PlayedIndexed(offers, ops.onOffers).data == m'.offers
            && PlayedIndexed(bids, ops.onBids).data == m'.bids
            && PlayedIndexed(offers, ops.onOffers).slots.Keys == f.bidSlots.Keys
            && PlayedIndexed(bids, ops.onBids).slots.Keys == f.bidSlots.Keys
            && SlotsKnown(m', f.bidSlots.Keys)
  {
    hide Step, StepOps, StepMishap, Valid, Coherent, Orderly;
    KnownSlots(f);
    StepMirrors(st.cfg, st.matcher, f.market, f.bidSlots.Keys, a);
    CleanOpsKeepCoherence(SlotsOf(f).offers, StepOps(st.cfg, st.matcher, f.market, a).onOffers);
    CleanOpsKeepCoherence(SlotsOf(f).bids, StepOps(st.cfg, st.matcher, f.market, a).onBids);
  }

  lemma KeptIsValid(m: Market, offers: Book, bids: Book, keep: iset<int>)
    requires Valid(m) && offers == Only(m.offers, keep) && bids == Only(m.bids, keep)
    ensures OffersValid(offers, m.nextId) && BidsValid(bids, m.nextId)
  {
    OnlyDistinct(m.offers, keep);
    OnlyDistinct(m.bids, keep);
  }

  // Which slots a rotation keeps, whatever the rotator.
  ghost function Staying(st: Setting, now: int, gate: bool): iset<int> {
    if st.rotator == FutureRotator then Later(now)
    else if gate then OpenAt(st.block, now)
    else iset t: int | Anywhere(t)
  }

  predicate Anywhere(t: int) {
    true
  }

  // The parameters a market keeps: a forward market's are those of its open slots; a future
  // market's still include those of the slots it has dropped. All of them satisfy the assertions.
  ghost predicate InfoAgrees(st: Setting, f: Future) {
    && (forall p :: p in f.info ==> Sound(p) && p.closingTime == st.block.closing(p.deliveryStart))
    && (forall t :: t in f.bidSlots ==> HasParams(f.info, t))
    && (st.rotator == ForwardRotator ==> forall t :: HasParams(f.info, t) ==> t in f.bidSlots)
  }

  lemma RotationKeeps(st: Setting, f: Future, now: int, gate: bool)
    requires WellFormed(st.block) && IndexAgrees(f) && InfoAgrees(st, f)
    ensures var r := RotatedBy(st, SlotsOf(f), now, gate);
            && SlotsCoherent(r)
            && r.offers == Kept(SlotsOf(f).offers, Staying(st, now, gate))
            && r.bids == Kept(SlotsOf(f).bids, Staying(st, now, gate))
            && r.trades == TradesIn(f.market.trades, Staying(st, now, gate))
            && (forall p :: p in r.info ==> p in f.info)
            && (forall t :: t in r.bids.slots ==> HasParams(r.info, t))
            && (st.rotator == ForwardRotator ==> forall t :: HasParams(r.info, t) ==> t in r.bids.slots)
  {
    hide SlotsCoherent, Rotated, SlotsKept, Coherent;
    var s := SlotsOf(f);
    match st.rotator
    case FutureRotator =>
      KeepingSlotsKeepsCoherence(s, Later(now));
      SlotsKeptParts(s, Later(now));
    case ForwardRotator =>
      if gate {
        RotationIsExact(st.block, s, now);
      } else {
        KeptEverything(s.offers, Staying(st, now, gate));
        KeptEverything(s.bids, Staying(st, now, gate));
        TradesInEverything(s.trades, Staying(st, now, gate));
      }
  }

  lemma SlotsKeptParts(s: Slots, keep: iset<int>)
    ensures var r := SlotsKept(s, keep);
            && r.offers == Kept(s.offers, keep) && r.bids == Kept(s.bids, keep)
            && r.trades == TradesIn(s.trades, keep) && r.info == s.info
  {
  }

  lemma OpenedParts(st: Setting, s: Slots, now: int)
    requires WellFormed(st.block) && SlotsCoherent(s)
    ensures var r := SlotsOpened(s, st.block, st.inSimulation, now);
            var created := Opened(st.block, s.bids.slots.Keys, st.inSimulation, now);
            && SlotsCoherent(r)
            && r.offers.data == s.offers.data && r.bids.data == s.bids.data && r.trades == s.trades
            && (forall t :: t in r.bids.slots <==> t in s.bids.slots || t in created)
            && (forall t :: t in created ==> Reachable(st.block, now, t))
            && (forall t :: HasParams(r.info, t) <==> HasParams(s.info, t) || t in created)
            && (forall p :: p in r.info ==>
                  (p in s.info || (p.deliveryStart in created && p == ParamsOf(st.block, now, p.deliveryStart))))
  {
    var created := Opened(st.block, s.bids.slots.Keys, st.inSimulation, now);
    OpeningKeepsCoherence(s, st.block, st.inSimulation, now);
    ParamsAfter(s.info, st.block, now, created);
    forall t | t in created ensures Reachable(st.block, now, t) {
      OpenedIff(st.block, s.bids.slots.Keys, st.inSimulation, now, t);
    }
  }

  lemma CycleKeeps(st: Setting, f: Future, now: int, gate: bool)
    requires WellFormed(st.block) && IndexAgrees(f) && InfoAgrees(st, f) && f.clock <= now
    ensures var f' := Moved(st, f, Cycles(now, gate)); IndexAgrees(f') && InfoAgrees(st, f')
  {
    hide SlotsCoherent, Coherent, SlotsOpened, RotatedBy, Kept, Staying, Opened;
    var r := RotatedBy(st, SlotsOf(f), now, gate);
    RotationKeeps(st, f, now, gate);
    OpenedParts(st, r, now);
    var f' := Moved(st, f, Cycles(now, gate));
    KeptParts(SlotsOf(f).offers, Staying(st, now, gate));
    KeptParts(SlotsOf(f).bids, Staying(st, now, gate));
    KeptIsValid(f.market, f'.market.offers, f'.market.bids, Staying(st, now, gate));
    assert SlotsOf(f') == SlotsOpened(r, st.block, st.inSimulation, now);
  }

  lemma KeptParts(x: Indexed, keep: iset<int>)
    ensures Kept(x, keep).data == Only(x.data, keep)
    ensures forall t :: t in Kept(x, keep).slots <==> t in x.slots && t in keep
  {
  }

  lemma TradingKeeps(st: Setting, f: Future, a: Action)
    requires WellFormed(st.block) && IndexAgrees(f) && InfoAgrees(st, f) && Allowed(st, f, Trades(a))
    ensures var f' := Moved(st, f, Trades(a));
            IndexAgrees(f') && InfoAgrees(st, f') && f'.bidSlots.Keys == f.bidSlots.Keys
  {
    hide Step, StepOps, StepMishap, Coherent, Valid, Orderly;
    TradingPlays(st, f, a);
    ValidAfterStep(st.cfg, st.matcher, f.market, a);
    var f' := Moved(st, f, Trades(a));
    var ops := StepOps(st.cfg, st.matcher, f.market, a);
    assert SlotsOf(f').offers == PlayedIndexed(SlotsOf(f).offers, ops.onOffers);
    assert SlotsOf(f').bids == PlayedIndexed(SlotsOf(f).bids, ops.onBids);
  }

  lemma MoveKeeps(st: Setting, f: Future, move: Move)
    requires WellFormed(st.block) && IndexAgrees(f) && InfoAgrees(st, f) && Allowed(st, f, move)
    ensures var f' := Moved(st, f, move); IndexAgrees(f') && InfoAgrees(st, f') && f.clock <= f'.clock
  {
    hide IndexAgrees, InfoAgrees, Moved;
    match move
    case Trades(a) =>
      TradingKeeps(st, f, a);
      ClockStands(st, f, a);
    case Cycles(now, gate) =>
      CycleKeeps(st, f, now, gate);
      ClockAdvances(st, f, now, gate);
  }

  lemma ClockStands(st: Setting, f: Future, a: Action)
    requires WellFormed(st.block) && IndexAgrees(f) && Allowed(st, f, Trades(a))
    ensures Moved(st, f, Trades(a)).clock == f.clock
  {
    hide Step, StepOps, StepMishap, Coherent, Valid, Orderly;
  }

  lemma ClockAdvances(st: Setting, f: Future, now: int, gate: bool)
    requires WellFormed(st.block) && IndexAgrees(f) && f.clock <= now
    ensures Moved(st, f, Cycles(now, gate)).clock == now
  {
  }

  // ----- runs -----

  // Every move is allowed in the state it finds; nothing is asked of these states themselves.
  ghost predicate AllowedRun(st: Setting, f: Future, moves: seq<Move>)
    requires WellFormed(st.block) && IndexAgrees(f) && InfoAgrees(st, f)
    decreases |moves|
  {
    moves == [] ||
    (Allowed(st, f, moves[0]) && (MoveKeeps(st, f, moves[0]); AllowedRun(st, Moved(st, f, moves[0]), moves[1..])))
  }

  ghost function After(st: Setting, f: Future, moves: seq<Move>): (f': Future)
    requires WellFormed(st.block) && IndexAgrees(f) && InfoAgrees(st, f) && AllowedRun(st, f, moves)
    ensures IndexAgrees(f') && InfoAgrees(st, f') && f.clock <= f'.clock
    decreases |moves|
  {
    if moves == [] then f
    else
      MoveKeeps(st, f, moves[0]);
      After(st, Moved(st, f, moves[0]), moves[1..])
  }

  ghost function Start(clock: int): (f: Future)
    ensures IndexAgrees(f) && forall st :: InfoAgrees(st, f)
  {
    Future(EMPTY_MARKET, map[], map[], [], clock)
  }

  // ----- fair runs -----

  // With constant fees nothing is asked; otherwise what is done to the market is fair.
  ghost predicate FairMovesOnly(st: Setting, f: Future, moves: seq<Move>)
    requires WellFormed(st.block) && IndexAgrees(f) && InfoAgrees(st, f)
    decreases |moves|
  {
    moves == [] ||
    (Permitted(f, moves[0]) && (moves[0].Trades? ==> FairAction(st.cfg.fee, f.market, moves[0].action)) &&
     (Harmless(st, f, moves[0]) ==>
        (MoveKeeps(st, f, moves[0]); FairMovesOnly(st, Moved(st, f, moves[0]), moves[1..]))))
  }

  lemma FairAfterCycle(st: Setting, f: Future, now: int, gate: bool)
    requires WellFormed(st.block) && IndexAgrees(f) && InfoAgrees(st, f) && f.clock <= now
    requires FairMarket(st.cfg.fee, f.market)
    ensures FairMarket(st.cfg.fee, Moved(st, f, Cycles(now, gate)).market)
  {
    hide SlotsCoherent, Coherent, SlotsOpened, RotatedBy, Kept, Staying, Opened, FairOffer, FairBid;
    RotationKeeps(st, f, now, gate);
    OpenedParts(st, RotatedBy(st, SlotsOf(f), now, gate), now);
    KeptParts(SlotsOf(f).offers, Staying(st, now, gate));
    KeptParts(SlotsOf(f).bids, Staying(st, now, gate));
    BooksAreDistinct(f);
    OnlyDistinct(f.market.offers, Staying(st, now, gate));
    OnlyDistinct(f.market.bids, Staying(st, now, gate));
  }

  lemma BooksAreDistinct(f: Future)
    requires IndexAgrees(f)
    ensures Distinct(f.market.offers) && Distinct(f.market.bids)
  {
  }

  lemma FairAfterTrading(st: Setting, f: Future, a: Action)
    requires WellFormed(st.block) && IndexAgrees(f) && InfoAgrees(st, f) && Permitted(f, Trades(a))
    requires FairAction(st.cfg.fee, f.market, a) && (st.cfg.fee.ConstantFee? || FairMarket(st.cfg.fee, f.market))
    ensures Harmless(st, f, Trades(a))
    ensures FairMarket(st.cfg.fee, f.market) ==> FairMarket(st.cfg.fee, Moved(st, f, Trades(a)).market)
  {
    hide Step, StepOps, StepMishap, Coherent, Valid, Orderly, FairMarket, FairAction;
    FairStepStrandsNothing(st.cfg, st.matcher, f.market, a);
  }

  // With constant fees, and in fair markets where only what is fair is done, every permitted run is
  // allowed: nothing has to be known about the outcome of any step.
  lemma {:induction false} FairRunsAreAllowed(st: Setting, f: Future, moves: seq<Move>)
    requires WellFormed(st.block) && IndexAgrees(f) && InfoAgrees(st, f) && FairMovesOnly(st, f, moves)
    requires st.cfg.fee.ConstantFee? || FairMarket(st.cfg.fee, f.market)
    ensures AllowedRun(st, f, moves)
    decreases |moves|
  {
    hide IndexAgrees, InfoAgrees, Moved, FairMarket, FairAction, StepMishap, Permitted;
    if moves != [] {
      AgreesIsValid(f);
      match moves[0] {
        case Trades(a) => FairAfterTrading(st, f, a);
        case Cycles(now, gate) =>
          if FairMarket(st.cfg.fee, f.market) {
            CyclesForward(f, now, gate);
            FairAfterCycle(st, f, now, gate);
          }
      }
      MoveKeeps(st, f, moves[0]);
      FairRunsAreAllowed(st, Moved(st, f, moves[0]), moves[1..]);
    }
  }

  lemma AgreesIsValid(f: Future)
    requires IndexAgrees(f)
    ensures Valid(f.market)
  {
  }

  lemma CyclesForward(f: Future, now: int, gate: bool)
    requires Permitted(f, Cycles(now, gate))
    ensures f.clock <= now
  {
  }

  // In every reachable state the two dictionaries know the same slots; every open order is in
  // the list of its own slot, in no other, and each list holds the slot's orders in the order of
  // the dictionary; every trade's slot is known, so the trades can be told apart by slot; and
  // every open slot has parameters that satisfy the assertions.
  lemma SlotListsAgreeInEveryRun(st: Setting, clock: int, moves: seq<Move>)
    requires WellFormed(st.block) && AllowedRun(st, Start(clock), moves)
    ensures var f := After(st, Start(clock), moves);
            && f.offerSlots.Keys == f.bidSlots.Keys
            && (forall o :: o in f.market.offers ==> o.timeSlot in f.offerSlots)
            && (forall b :: b in f.market.bids ==> b.timeSlot in f.bidSlots)
            && (forall t, o :: t in f.offerSlots ==>
                  (o in f.offerSlots[t] <==> o in f.market.offers && o.timeSlot == t))
            && (forall t, b :: t in f.bidSlots ==> (b in f.bidSlots[t] <==> b in f.market.bids && b.timeSlot == t))
            && (forall t :: t in f.offerSlots ==>
                  Distinct(f.offerSlots[t]) && f.offerSlots[t] == Only(f.market.offers, iset{t}))
            && (forall t :: t in f.bidSlots ==>
                  Distinct(f.bidSlots[t]) && f.bidSlots[t] == Only(f.market.bids, iset{t}))
            && (forall trade :: trade in f.market.trades ==> trade.timeSlot in f.bidSlots)
            && (forall p :: p in f.info ==> Sound(p))
            && (forall t :: t in f.bidSlots ==> HasParams(f.info, t))
            && (st.rotator == ForwardRotator ==> forall t :: HasParams(f.info, t) <==> t in f.bidSlots)
  {
    hide After, AllowedRun, Valid;
    var f := After(st, Start(clock), moves);
    forall t | t in f.offerSlots
      ensures Distinct(f.offerSlots[t])
      ensures forall o :: o in f.offerSlots[t] <==> o in f.market.offers && o.timeSlot == t
    {
      OnlyIn(f.market.offers, iset{t});
      OnlyDistinct(f.market.offers, iset{t});
    }
    forall t | t in f.bidSlots
      ensures Distinct(f.bidSlots[t])
      ensures forall b :: b in f.bidSlots[t] <==> b in f.market.bids && b.timeSlot == t
    {
      OnlyIn(f.market.bids, iset{t});
      OnlyDistinct(f.market.bids, iset{t});
    }
  }

  // A slot that is not open and has closed by the clock never opens again, ...
  lemma {:induction false} ClosedStaysClosed(st: Setting, f: Future, moves: seq<Move>, t: int)
    requires WellFormed(st.block) && IndexAgrees(f) && InfoAgrees(st, f) && AllowedRun(st, f, moves)
    requires t !in f.bidSlots && st.block.closing(t) <= f.clock
    ensures t !in After(st, f, moves).bidSlots
    decreases |moves|
  {
    hide IndexAgrees, InfoAgrees, Moved, Allowed, WellFormed;
    if moves != [] {
      MoveKeeps(st, f, moves[0]);
      NotReopened(st, f, moves[0], t);
      ClosedStaysClosed(st, Moved(st, f, moves[0]), moves[1..], t);
    }
  }

  lemma NotReopened(st: Setting, f: Future, move: Move, t: int)
    requires WellFormed(st.block) && IndexAgrees(f) && InfoAgrees(st, f) && Allowed(st, f, move)
    requires t !in f.bidSlots && st.block.closing(t) <= f.clock
    ensures t !in Moved(st, f, move).bidSlots
  {
    match move
    case Trades(a) => TradingKeeps(st, f, a);
    case Cycles(now, gate) => SlotsAfterCycle(st, f, now, gate, t);
  }

  // The slots that are open after a cycle.
  lemma SlotsAfterCycle(st: Setting, f: Future, now: int, gate: bool, t: int)
    requires WellFormed(st.block) && IndexAgrees(f) && InfoAgrees(st, f) && f.clock <= now
    ensures var f' := Moved(st, f, Cycles(now, gate));
            && (t in f'.bidSlots && t !in f.bidSlots ==> Reachable(st.block, now, t) && st.inSimulation(t))
            && (t in f.bidSlots && t !in f'.bidSlots ==> st.block.closing(t) <= now)
            && (t in f'.bidSlots && st.rotator == ForwardRotator && gate ==> st.block.closing(t) > now)
            && (t in f'.bidSlots && st.rotator == FutureRotator ==> t > now)
  {
    hide SlotsCoherent, Coherent, SlotsOpened, RotatedBy, Kept;
    var r := RotatedBy(st, SlotsOf(f), now, gate);
    RotationKeeps(st, f, now, gate);
    OpenedParts(st, r, now);
    KeptParts(SlotsOf(f).bids, Staying(st, now, gate));
    OpenedIff(st.block, r.bids.slots.Keys, st.inSimulation, now, t);
    assert st.block.closing(t) <= t;
  }

  // ... and a slot a cycle removes has closed, so it is gone for good.
  lemma RemovedSlotsNeverReopen(st: Setting, clock: int, before: seq<Move>, now: int, gate: bool, later: seq<Move>,
                                t: int)
    requires WellFormed(st.block) && AllowedRun(st, Start(clock), before)
    requires AllowedRun(st, After(st, Start(clock), before), [Cycles(now, gate)] + later)
    requires t in After(st, Start(clock), before).bidSlots
    requires t !in AfterCycle(st, After(st, Start(clock), before), now, gate, later).bidSlots
    ensures t !in After(st, After(st, Start(clock), before), [Cycles(now, gate)] + later).bidSlots
  {
    hide Moved, IndexAgrees, InfoAgrees, WellFormed;
    var f, moves := After(st, Start(clock), before), [Cycles(now, gate)] + later;
    assert moves[1..] == later;
    MoveKeeps(st, f, Cycles(now, gate));
    SlotsAfterCycle(st, f, now, gate, t);
    ClockAdvances(st, f, now, gate);
    ClosedStaysClosed(st, Moved(st, f, Cycles(now, gate)), later, t);
  }

  // The market after the cycle at the head of an allowed run.
  ghost function AfterCycle(st: Setting, f: Future, now: int, gate: bool, later: seq<Move>): Future
    requires WellFormed(st.block) && IndexAgrees(f) && InfoAgrees(st, f)
    requires AllowedRun(st, f, [Cycles(now, gate)] + later)
  {
    Moved(st, f, Cycles(now, gate))
  }

  // A future market, unlike a forward market, never forgets the parameters of a slot it has removed.
  lemma {:induction false} FutureParametersPileUp(st: Setting, f: Future, moves: seq<Move>, t: int)
    requires WellFormed(st.block) && IndexAgrees(f) && InfoAgrees(st, f) && AllowedRun(st, f, moves)
    requires st.rotator == FutureRotator && HasParams(f.info, t)
    ensures HasParams(After(st, f, moves).info, t)
    decreases |moves|
  {
    hide IndexAgrees, InfoAgrees, Moved, Allowed, WellFormed;
    if moves != [] {
      MoveKeeps(st, f, moves[0]);
      ParametersStay(st, f, moves[0], t);
      FutureParametersPileUp(st, Moved(st, f, moves[0]), moves[1..], t);
    }
  }

  lemma ParametersStay(st: Setting, f: Future, move: Move, t: int)
    requires WellFormed(st.block) && IndexAgrees(f) && InfoAgrees(st, f) && Allowed(st, f, move)
    requires st.rotator == FutureRotator && HasParams(f.info, t)
    ensures HasParams(Moved(st, f, move).info, t)
  {
    hide Step, StepOps, StepMishap, Coherent, Valid, Orderly, SlotsOpened, HasParams;
    match move
    case Trades(_) =>
    case Cycles(now, gate) =>
      RotationKeeps(st, f, now, gate);
      OpenedParts(st, RotatedBy(st, SlotsOf(f), now, gate), now);
  }
}
