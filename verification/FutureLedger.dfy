/** The accounts of a future market: rotation drops trades from the list, but not from the accounts. */
module FutureLedger {
  import opened Books
  import opened MarketState
  import opened Runs
  import opened Ledger
  import opened FutureOrders
  import opened FutureSlots
  import opened MarketRotation
  import opened FutureTrading
  import opened FutureRuns

  ghost function OpenSlots(f: Future): iset<int> {
    iset t: int | t in f.bidSlots
  }

  // The accounts are of all trades ever booked. On the list are those of the open slots, in order; the
  // slots of all others have closed.
  ghost predicate FutureLedgerOk(st: Setting, f: Future) {
    && LedgerOk(f.market)
    && f.market.trades == TradesIn(BookedIn(f.market.events), OpenSlots(f))
    && (forall t :: t in BookedIn(f.market.events) ==>
          t.timeSlot in f.bidSlots || st.block.closing(t.timeSlot) <= f.clock)
  }

  // ----- rotation announces deletions only -----

  ghost predicate OnlyDeletions(news: seq<Event>) {
    forall e :: e in news ==> e.OfferDeleted? || e.BidDeleted?
  }

  lemma {:induction false} DeletionsAreDeletions(ofOffers: bool, orders: Book)
    ensures OnlyDeletions(Deletions(ofOffers, orders))
  {
    if orders != [] {
      DeletionsAreDeletions(ofOffers, orders[1..]);
    }
  }

  lemma NewsOfKeeping(s: Slots, keep: iset<int>) returns (news: seq<Event>)
    ensures OnlyDeletions(news) && SlotsKept(s, keep).events == s.events + news
  {
    var offers := Deletions(true, Only(s.offers.data, Outside(keep)));
    var bids := Deletions(false, Only(s.bids.data, Outside(keep)));
    news := offers + bids;
    DeletionsAreDeletions(true, Only(s.offers.data, Outside(keep)));
    DeletionsAreDeletions(false, Only(s.bids.data, Outside(keep)));
    Regroup(s.events, offers, bids);
  }

  lemma {:induction false} NewsOfKeepingAll(s: Slots, slots: seq<int>) returns (news: seq<Event>)
    ensures OnlyDeletions(news) && KeptAfterAll(s, slots).events == s.events + news
    decreases |slots|
  {
    hide SlotsKept;
    if slots == [] {
      news := [];
      assert s.events + [] == s.events;
    } else {
      var before := NewsOfKeepingAll(s, slots[..|slots| - 1]);
      var last := NewsOfKeeping(KeptAfterAll(s, slots[..|slots| - 1]), Later(slots[|slots| - 1]));
      news := before + last;
      Regroup(s.events, before, last);
    }
  }

  lemma NewsOfCycle(st: Setting, f: Future, now: int, gate: bool) returns (news: seq<Event>)
    requires WellFormed(st.block) && IndexAgrees(f) && f.clock <= now
    ensures OnlyDeletions(news) && Moved(st, f, Cycles(now, gate)).market.events == f.market.events + news
  {
    hide SlotsKept, KeptAfterAll, Opened, IndexAgrees;
    var s := SlotsOf(f);
    match st.rotator
    case FutureRotator => news := NewsOfKeeping(s, Later(now));
    case ForwardRotator =>
      if gate {
        news := NewsOfKeepingAll(s, ClosedDeliveries(s.info, now));
      } else {
        news := [];
        assert s.events + [] == s.events;
      }
  }

  // ----- moves -----

  lemma CycleKeepsAccounts(st: Setting, f: Future, now: int, gate: bool)
    requires WellFormed(st.block) && IndexAgrees(f) && f.clock <= now && LedgerOk(f.market)
    ensures var f' := Moved(st, f, Cycles(now, gate));
            LedgerOk(f'.market) && BookedIn(f'.market.events) == BookedIn(f.market.events)
  {
    hide IndexAgrees, RotatedBy, SlotsOpened, Accounts;
    var news := NewsOfCycle(st, f, now, gate);
    BookedNone(f.market.events, news);
    SameFiguresSameAccounts(f.market, Moved(st, f, Cycles(now, gate)).market, BookedIn(f.market.events));
  }

  // A slot that a rotation drops has closed.
  lemma DroppedHasClosed(st: Setting, now: int, gate: bool, t: int)
    requires WellFormed(st.block) && t !in Staying(st, now, gate)
    ensures st.block.closing(t) <= now
  {
    if st.rotator == FutureRotator {
      assert !IsLater(t, now);
    } else if gate {
      assert !ClosesAfter(st.block, now, t);
    } else {
      assert false;
    }
  }

  // Of the slots that had a trade, the open ones after a cycle are those that stayed.
  lemma TradedSlotAfterCycle(st: Setting, f: Future, now: int, gate: bool, t: int)
    requires WellFormed(st.block) && IndexAgrees(f) && InfoAgrees(st, f) && f.clock <= now
    requires t in f.bidSlots || st.block.closing(t) <= f.clock
    ensures var f' := Moved(st, f, Cycles(now, gate));
            t in f'.bidSlots <==> t in f.bidSlots && t in Staying(st, now, gate)
    ensures t !in Moved(st, f, Cycles(now, gate)).bidSlots ==> st.block.closing(t) <= now
  {
    hide SlotsCoherent, Coherent, SlotsOpened, RotatedBy, Kept, Staying, Opened;
    var r := RotatedBy(st, SlotsOf(f), now, gate);
    RotationKeeps(st, f, now, gate);
    OpenedParts(st, r, now);
    KeptParts(SlotsOf(f).bids, Staying(st, now, gate));
    OpenedIff(st.block, r.bids.slots.Keys, st.inSimulation, now, t);
    if t !in Staying(st, now, gate) {
      DroppedHasClosed(st, now, gate, t);
    }
  }

  lemma TradesAfterCycle(st: Setting, f: Future, now: int, gate: bool)
    requires WellFormed(st.block) && IndexAgrees(f) && InfoAgrees(st, f) && f.clock <= now
    ensures Moved(st, f, Cycles(now, gate)).market.trades == TradesIn(f.market.trades, Staying(st, now, gate))
  {
    hide SlotsCoherent, Coherent, Opened, RotatedBy, Kept, Staying, TradesIn;
    RotationKeeps(st, f, now, gate);
  }

  lemma CycleKeepsFutureLedger(st: Setting, f: Future, now: int, gate: bool)
    requires WellFormed(st.block) && IndexAgrees(f) && InfoAgrees(st, f) && f.clock <= now && FutureLedgerOk(st, f)
    ensures FutureLedgerOk(st, Moved(st, f, Cycles(now, gate)))
  {
    hide IndexAgrees, InfoAgrees, LedgerOk, Moved, Staying, TradesIn, WellFormed;
    var f', booked := Moved(st, f, Cycles(now, gate)), BookedIn(f.market.events);
    CycleKeepsAccounts(st, f, now, gate);
    ClockAdvances(st, f, now, gate);
    TradesAfterCycle(st, f, now, gate);
    TradesInTwice(booked, OpenSlots(f), Staying(st, now, gate));
    forall t | t in booked
      ensures t.timeSlot in OpenSlots(f') <==> t.timeSlot in OpenSlots(f) * Staying(st, now, gate)
      ensures t.timeSlot in f'.bidSlots || st.block.closing(t.timeSlot) <= now
    {
      TradedSlotAfterCycle(st, f, now, gate, t.timeSlot);
    }
    TradesInSame(booked, OpenSlots(f'), OpenSlots(f) * Staying(st, now, gate));
  }

  lemma {:induction false} TradesInAll(trades: seq<Trade>, keep: iset<int>)
    requires forall t :: t in trades ==> t.timeSlot in keep
    ensures TradesIn(trades, keep) == trades
  {
    if trades != [] {
      assert trades[0] in trades;
      TradesInAll(trades[1..], keep);
      assert trades == [trades[0]] + trades[1..];
    }
  }

  lemma TradingKeepsFutureLedger(st: Setting, f: Future, a: Action)
    requires WellFormed(st.block) && IndexAgrees(f) && InfoAgrees(st, f) && Allowed(st, f, Trades(a))
    requires FutureLedgerOk(st, f)
    ensures FutureLedgerOk(st, Moved(st, f, Trades(a)))
  {
    hide InfoAgrees, Allowed, WellFormed, Step, StepOps, Progress, LedgerOk, TradesIn, BookedIn, Valid;
    TradingKeeps(st, f, a);
    ClockStands(st, f, a);
    var f' := Moved(st, f, Trades(a));
    TradingSteps(st, f, a);
    StepProgresses(st.cfg, st.matcher, f.market, a);
    ProgressIsLedger(f.market, f'.market);
    KnownSlots(f');
    var booked, after := BookedIn(f.market.events), BookedIn(f'.market.events);
    var news := after[|booked|..];
    assert after == booked + news && f'.market.trades == f.market.trades + news;
    assert OpenSlots(f') == OpenSlots(f);
    forall t | t in news ensures t.timeSlot in f'.bidSlots {
      assert t in f'.market.trades;
    }
    TradesInAppend(booked, news, OpenSlots(f));
    TradesInAll(news, OpenSlots(f));
  }

  lemma TradingSteps(st: Setting, f: Future, a: Action)
    requires WellFormed(st.block) && IndexAgrees(f) && Allowed(st, f, Trades(a))
    ensures Valid(f.market) && Moved(st, f, Trades(a)).market == Step(st.cfg, st.matcher, f.market, a).0
  {
    hide Step, StepOps, Coherent, OffersValid, BidsValid, Orderly;
  }

  lemma {:induction false} FutureLedgerAfter(st: Setting, f: Future, moves: seq<Move>)
    requires WellFormed(st.block) && IndexAgrees(f) && InfoAgrees(st, f) && AllowedRun(st, f, moves)
    requires FutureLedgerOk(st, f)
    ensures FutureLedgerOk(st, After(st, f, moves))
    decreases |moves|
  {
    hide IndexAgrees, InfoAgrees, Moved, WellFormed, FutureLedgerOk;
    if moves != [] {
      match moves[0] {
        case Trades(a) => TradingKeepsFutureLedger(st, f, a);
        case Cycles(now, gate) => CycleKeepsFutureLedger(st, f, now, gate);
      }
      MoveKeeps(st, f, moves[0]);
      FutureLedgerAfter(st, Moved(st, f, moves[0]), moves[1..]);
    }
  }

  // ----- kept and dropped trades -----

  lemma {:induction false} SumOfBoth(value: Trade -> real, a: seq<Trade>, b: seq<Trade>)
    ensures Sum(value, a + b) == Sum(value, a) + Sum(value, b)
    decreases |b|
  {
    if b == [] {
      assert a + b == a;
    } else {
      assert (a + b)[..|a + b| - 1] == a + b[..|b| - 1];
      SumOfBoth(value, a, b[..|b| - 1]);
    }
  }

  lemma {:induction false} SumSplits(value: Trade -> real, trades: seq<Trade>, keep: iset<int>)
    ensures Sum(value, trades) == Sum(value, TradesIn(trades, keep)) + Sum(value, TradesIn(trades, Outside(keep)))
    decreases |trades|
  {
    if trades != [] {
      var before, last := trades[..|trades| - 1], [trades[|trades| - 1]];
      assert trades == before + last && last[1..] == [];
      SumSplits(value, before, keep);
      TradesInAppend(before, last, keep);
      TradesInAppend(before, last, Outside(keep));
      SumOfBoth(value, TradesIn(before, keep), TradesIn(last, keep));
      SumOfBoth(value, TradesIn(before, Outside(keep)), TradesIn(last, Outside(keep)));
      assert last[..0] == [];
    }
  }

  lemma {:induction false} SumOfPositive(value: Trade -> real, trades: seq<Trade>)
    requires forall t :: t in trades ==> value(t) > 0.0
    ensures Sum(value, trades) >= 0.0 && (Sum(value, trades) == 0.0 <==> trades == [])
    decreases |trades|
  {
    if trades != [] {
      assert trades[|trades| - 1] in trades;
      SumOfPositive(value, trades[..|trades| - 1]);
    }
  }

  // In every reachable state of a future or forward market the totals and the traders' energies are those
  // of all trades ever booked; the list holds the ones of the open slots, in order. So the total energy
  // exceeds the energy of the list by what was traded in slots that are gone, and equals it exactly if
  // nothing was.
  lemma FutureLedgerInEveryRun(st: Setting, clock: int, moves: seq<Move>)
    requires WellFormed(st.block) && AllowedRun(st, Start(clock), moves)
    ensures var f := After(st, Start(clock), moves);
            var booked, gone := BookedIn(f.market.events), TradesIn(BookedIn(f.market.events), Outside(OpenSlots(f)));
            && Accounts(f.market, booked)
            && f.market.trades == TradesIn(booked, OpenSlots(f))
            && (forall t :: t in gone ==> st.block.closing(t.timeSlot) <= f.clock)
            && f.market.tradedEnergy == Sum((t: Trade) => t.tradedEnergy, f.market.trades) +
                                        Sum((t: Trade) => t.tradedEnergy, gone)
            && f.market.tradedEnergy >= Sum((t: Trade) => t.tradedEnergy, f.market.trades)
            && (f.market.tradedEnergy == Sum((t: Trade) => t.tradedEnergy, f.market.trades) <==> gone == [])
  {
    StartIsBalanced(st, clock);
    hide After, AllowedRun, WellFormed, Start, IndexAgrees, InfoAgrees, BookedIn, Sum, TradesIn;
    FutureLedgerAfter(st, Start(clock), moves);
    var f := After(st, Start(clock), moves);
    var booked, gone := BookedIn(f.market.events), TradesIn(BookedIn(f.market.events), Outside(OpenSlots(f)));
    TradesInWhich(booked, Outside(OpenSlots(f)));
    SumSplits((t: Trade) => t.tradedEnergy, booked, OpenSlots(f));
    SumOfPositive((t: Trade) => t.tradedEnergy, gone);
  }

  lemma StartIsBalanced(st: Setting, clock: int)
    ensures FutureLedgerOk(st, Start(clock)) && IndexAgrees(Start(clock)) && InfoAgrees(st, Start(clock))
  {
    EmptyLedger();
  }
}
