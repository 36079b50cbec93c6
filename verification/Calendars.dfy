/** The calendars in minutes: which slots a future, an intraday and a day-forward market open, and which
    ones they have after a cycle. */
module Calendars {
  import opened FutureSlots
  import opened FutureOrders
  import opened FutureRuns
  import opened MarketRotation

  lemma {:induction false} NthOfGrid(b: Block, length: int, t: int, n: nat)
    requires forall s :: b.next(s) == s + length
    ensures Nth(b, t, n) == t + n * length
    decreases n
  {
    if n > 0 {
      NthOfGrid(b, length, b.next(t), n - 1);
    }
  }

  predicate IsStep(length: int, from: int, n: int, t: int) {
    n >= 0 && t == from + n * length
  }

  // Some whole number of lengths from where the grid starts.
  ghost predicate OnSteps(length: int, from: int, t: int) {
    exists n :: IsStep(length, from, n, t)
  }

  // A slot is on a grid exactly if it is on its steps.
  lemma OnGridIff(b: Block, length: int, from: int, t: int)
    requires forall s :: b.next(s) == s + length
    ensures (exists n: nat :: Nth(b, from, n) == t) <==> OnSteps(length, from, t)
  {
    if exists n: nat :: Nth(b, from, n) == t {
      var n: nat :| Nth(b, from, n) == t;
      NthOfGrid(b, length, from, n);
      assert IsStep(length, from, n, t);
    }
    if OnSteps(length, from, t) {
      var n :| IsStep(length, from, n, t);
      NthOfGrid(b, length, from, n);
    }
  }

  lemma QuartersIff(from: int, t: int)
    ensures OnSteps(15, from, t) <==> t >= from && (t - from) % 15 == 0
  {
    if t >= from && (t - from) % 15 == 0 {
      assert IsStep(15, from, (t - from) / 15, t);
    }
  }

  lemma HoursIff(from: int, t: int)
    ensures OnSteps(60, from, t) <==> t >= from && (t - from) % 60 == 0
  {
    if t >= from && (t - from) % 60 == 0 {
      assert IsStep(60, from, (t - from) / 60, t);
    }
  }

  // ----- what is opened -----

  // Every slot length from the next slot on, up to the end of the configured duration.
  ghost predicate InFutureRange(slotLength: int, duration: int, now: int, t: int) {
    t <= now + duration && OnSteps(slotLength, now + slotLength, t)
  }

  // Every quarter of an hour, from half an hour ahead up to a day ahead.
  predicate InIntradayRange(now: int, t: int) {
    now + 30 <= t <= now + 1440 && (t - now) % 15 == 0
  }

  // Every hour of the seven days from tomorrow on, while there is more than a day to go.
  predicate InDayForwardRange(now: int, t: int) {
    var midnight := now - now % 1440;
    midnight + 1440 <= t < midnight + 8 * 1440 && t % 60 == 0 && t > now + 1440
  }

  lemma FutureOpens(slotLength: int, duration: int, known: set<int>, inSimulation: int -> bool, now: int, t: int)
    requires slotLength > 0 && WellFormed(FutureBlock(slotLength, duration))
    ensures t in Opened(FutureBlock(slotLength, duration), known, inSimulation, now) <==>
            InFutureRange(slotLength, duration, now, t) && t !in known && inSimulation(t)
  {
    var b := FutureBlock(slotLength, duration);
    OpenedIff(b, known, inSimulation, now, t);
    OnGridIff(b, slotLength, now + slotLength, t);
    if OnSteps(slotLength, now + slotLength, t) {
      StepsGoForward(slotLength, now + slotLength, t);
    }
  }

  lemma StepsGoForward(length: int, from: int, t: int)
    requires length > 0 && OnSteps(length, from, t)
    ensures t >= from
  {
    var n :| IsStep(length, from, n, t);
    assert n * length >= 0;
  }

  lemma IntradayOpens(known: set<int>, inSimulation: int -> bool, now: int, t: int)
    requires WellFormed(INTRADAY)
    ensures t in Opened(INTRADAY, known, inSimulation, now) <==>
            InIntradayRange(now, t) && t !in known && inSimulation(t)
  {
    OpenedIff(INTRADAY, known, inSimulation, now, t);
    OnGridIff(INTRADAY, 15, now + 30, t);
    QuartersIff(now + 30, t);
  }

  lemma DayForwardOpens(known: set<int>, inSimulation: int -> bool, now: int, t: int)
    requires WellFormed(DAY_FORWARD)
    ensures t in Opened(DAY_FORWARD, known, inSimulation, now) <==>
            InDayForwardRange(now, t) && t !in known && inSimulation(t)
  {
    hide Opened, InDayForwardRange, OnSteps;
    var tomorrow := now / 1440 * 1440 + 1440;
    assert DAY_FORWARD.start(now) == tomorrow && DAY_FORWARD.end(now) == now / 1440 * 1440 + 11460;
    assert DAY_FORWARD.closing(t) == t - 1440;
    OpenedIff(DAY_FORWARD, known, inSimulation, now, t);
    OnGridIff(DAY_FORWARD, 60, tomorrow, t);
    HoursIff(tomorrow, t);
    HoursOfDays(now, t);
  }

  lemma HoursOfDays(now: int, t: int)
    ensures var tomorrow := now / 1440 * 1440 + 1440;
            InDayForwardRange(now, t) <==>
            t >= tomorrow && (t - tomorrow) % 60 == 0 && t <= now / 1440 * 1440 + 11460 && t - 1440 > now
  {
    var day := now / 1440;
    assert now - now % 1440 == day * 1440;
    WholeHours(t, 24 * (day + 1));
    assert t % 60 == 0 && t < day * 1440 + 11520 ==> t <= day * 1440 + 11460;
  }

  lemma WholeHours(t: int, hours: int)
    ensures (t - hours * 60) % 60 == 0 <==> t % 60 == 0
  {
  }

  // What a slot's parameters say, in minutes.
  lemma ParametersInMinutes(slotLength: int, duration: int, now: int, t: int)
    ensures ParamsOf(FutureBlock(slotLength, duration), now, t) == SlotParams(t - duration, t, t, t + slotLength)
    ensures ParamsOf(INTRADAY, now, t) == SlotParams(now, t - 15, t, t + 15)
    ensures ParamsOf(DAY_FORWARD, now, t) == SlotParams(now, t - 1440, t, t + 60)
  {
  }

  // ----- what is open after a cycle -----

  lemma OpenAfterCycle(st: Setting, f: Future, now: int, gate: bool, t: int)
    requires WellFormed(st.block) && IndexAgrees(f) && InfoAgrees(st, f) && f.clock <= now
    ensures var f' := Moved(st, f, Cycles(now, gate));
            var kept := t in f.bidSlots && t in Staying(st, now, gate);
            exists known: set<int> ::
              (t in known <==> kept) &&
              (t in f'.bidSlots <==> kept || t in Opened(st.block, known, st.inSimulation, now))
  {
    hide SlotsCoherent, Coherent, SlotsOpened, RotatedBy, Kept, Staying, Opened;
    var r := RotatedBy(st, SlotsOf(f), now, gate);
    RotationKeeps(st, f, now, gate);
    OpenedParts(st, r, now);
    KeptParts(SlotsOf(f).bids, Staying(st, now, gate));
    assert t in r.bids.slots.Keys <==> t in f.bidSlots && t in Staying(st, now, gate);
  }

  // A future market keeps the slots that are to come and opens all others in range.
  lemma FutureSlotsAfterCycle(st: Setting, f: Future, slotLength: int, duration: int, now: int, gate: bool, t: int)
    requires slotLength > 0 && st.block == FutureBlock(slotLength, duration) && st.rotator == FutureRotator
    requires WellFormed(st.block) && IndexAgrees(f) && InfoAgrees(st, f) && f.clock <= now
    ensures t in Moved(st, f, Cycles(now, gate)).bidSlots <==>
            (t in f.bidSlots && t > now) || (InFutureRange(slotLength, duration, now, t) && st.inSimulation(t))
  {
    hide Moved, Opened, IndexAgrees, InfoAgrees, WellFormed;
    OpenAfterCycle(st, f, now, gate, t);
    var known: set<int> :|
      (t in known <==> t in f.bidSlots && t in Staying(st, now, gate)) &&
      (t in Moved(st, f, Cycles(now, gate)).bidSlots <==>
         (t in f.bidSlots && t in Staying(st, now, gate)) || t in Opened(st.block, known, st.inSimulation, now));
    FutureOpens(slotLength, duration, known, st.inSimulation, now, t);
    assert t in Later(now) <==> IsLater(t, now);
  }

  // A forward market drops the slots that have closed when it is time to, and opens all in range.
  lemma ForwardSlotsAfterCycle(st: Setting, f: Future, now: int, gate: bool, t: int)
    requires st.block == INTRADAY || st.block == DAY_FORWARD
    requires st.rotator == ForwardRotator
    requires WellFormed(st.block) && IndexAgrees(f) && InfoAgrees(st, f) && f.clock <= now
    ensures var lead := if st.block == INTRADAY then 15 else 1440;
            var inRange := if st.block == INTRADAY then InIntradayRange(now, t) else InDayForwardRange(now, t);
            t in Moved(st, f, Cycles(now, gate)).bidSlots <==>
            (t in f.bidSlots && (gate ==> t - lead > now)) || (inRange && st.inSimulation(t))
  {
    hide Moved, Opened, IndexAgrees, InfoAgrees, WellFormed;
    BlocksDiffer();
    OpenAfterCycle(st, f, now, gate, t);
    var known: set<int> :|
      (t in known <==> t in f.bidSlots && t in Staying(st, now, gate)) &&
      (t in Moved(st, f, Cycles(now, gate)).bidSlots <==>
         (t in f.bidSlots && t in Staying(st, now, gate)) || t in Opened(st.block, known, st.inSimulation, now));
    if st.block == INTRADAY {
      IntradayOpens(known, st.inSimulation, now, t);
    } else {
      DayForwardOpens(known, st.inSimulation, now, t);
    }
    assert gate ==> (t in Staying(st, now, gate) <==> ClosesAfter(st.block, now, t));
    assert !gate ==> Anywhere(t);
  }

  lemma BlocksDiffer()
    ensures INTRADAY != DAY_FORWARD && INTRADAY.closing(0) == -15 && DAY_FORWARD.closing(0) == -1440
  {
    assert INTRADAY.closing(0) != DAY_FORWARD.closing(0);
  }
}
