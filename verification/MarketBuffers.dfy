/** The market buffers of an area: the open spot market, the past ones, and the settlement markets
    that ride on them, from cycle to cycle. Times are minutes. */
module MarketBuffers {
  import opened Numeric

  datatype SlotMarket = SlotMarket(timeSlot: int, readonly: bool)

  // `{time_slot: market}`, in the order in which the slots were added.
  type Buffer = seq<SlotMarket>

  // The slot length, for how long a past slot can be settled, and the two switches that decide
  // what is kept.
  datatype Settings = Settings(slotLength: int, maxAge: int, settlement: bool, retainPast: bool)

  function Lookup(b: Buffer, t: int): Option<SlotMarket> {
    if b == [] then None else if b[0].timeSlot == t then Some(b[0]) else Lookup(b[1..], t)
  }

  function Assigned(b: Buffer, m: SlotMarket): Buffer {
    if b == [] then [m]
    else if b[0].timeSlot == m.timeSlot then [m] + b[1..]
    else [b[0]] + Assigned(b[1..], m)
  }

  function Popped(b: Buffer, t: int): Buffer {
    if b == [] then []
    else if b[0].timeSlot == t then b[1..]
    else [b[0]] + Popped(b[1..], t)
  }

  // The slots before a limit, or none when there is no limit.
  function SlotsBefore(b: Buffer, limit: Option<int>): seq<int> {
    if b == [] then []
    else (if limit.Some? && b[0].timeSlot < limit.value then [b[0].timeSlot] else []) + SlotsBefore(b[1..], limit)
  }

  function MovedToPast(markets: Buffer, past: Buffer, slots: seq<int>): (Buffer, Buffer)
    decreases |slots|
  {
    if slots == [] then (markets, past)
    else match Lookup(markets, slots[0])
      case None => MovedToPast(markets, past, slots[1..])
      case Some(m) => MovedToPast(Popped(markets, slots[0]), Assigned(past, m.(readonly := true)), slots[1..])
  }

  function Deleted(past: Buffer, slots: seq<int>): Buffer
    decreases |slots|
  {
    if slots == [] then past else Deleted(Popped(past, slots[0]), slots[1..])
  }

  datatype Kind = SpotMarkets | SettlementMarkets

  // A market before this time is moved to the past ones ...
  function RotateBefore(c: Settings, kind: Kind, now: int): int {
    match kind
    case SpotMarkets => now
    case SettlementMarkets => now - c.maxAge
  }

  // ... and a past market before this time is deleted.
  function DeleteBefore(c: Settings, kind: Kind, now: int): Option<int> {
    if c.retainPast then None
    else match kind
      case SpotMarkets => Some(if c.settlement then now - c.maxAge else now - c.slotLength)
      case SettlementMarkets => Some(now - c.maxAge - c.slotLength)
  }

  function Rotated(c: Settings, kind: Kind, markets: Buffer, past: Buffer, now: int): (Buffer, Buffer) {
    var (open, moved) := MovedToPast(markets, past, SlotsBefore(markets, Some(RotateBefore(c, kind, now))));
    (open, Deleted(moved, SlotsBefore(moved, DeleteBefore(c, kind, now))))
  }

  datatype Buffers = Buffers(markets: Buffer, past: Buffer, settlement: Buffer, pastSettlement: Buffer)

  function Cycled(c: Settings, b: Buffers, now: int): Buffers {
    var (markets, past) := Rotated(c, SpotMarkets, b.markets, b.past, now);
    var (settlement, pastSettlement) :=
      if c.settlement then Rotated(c, SettlementMarkets, b.settlement, b.pastSettlement, now)
      else (b.settlement, b.pastSettlement);
    Buffers(if Lookup(markets, now).None? then Assigned(markets, SlotMarket(now, false)) else markets, past,
            if past != [] && c.settlement then Assigned(settlement, SlotMarket(past[|past| - 1].timeSlot, false))
            else settlement,
            pastSettlement)
  }

  // ----- the objects -----

  class MarketBuffer {
    var entries: Buffer

    constructor ()
      ensures entries == []
    {
      entries := [];
    }
  }

  class MarketRotator {
    const settings: Settings
    const kind: Kind
    const markets: MarketBuffer
    const pastMarkets: MarketBuffer

    constructor (settings: Settings, kind: Kind, markets: MarketBuffer, pastMarkets: MarketBuffer)
      ensures this.settings == settings && this.kind == kind
      ensures this.markets == markets && this.pastMarkets == pastMarkets
    {
      this.settings, this.kind, this.markets, this.pastMarkets := settings, kind, markets, pastMarkets;
    }

    method Rotate(currentTimeSlot: int)
      requires markets != pastMarkets
      modifies markets, pastMarkets
      ensures (markets.entries, pastMarkets.entries) ==
              Rotated(settings, kind, old(markets.entries), old(pastMarkets.entries), currentTimeSlot)
    {
      MoveMarketsToPast(RotateBefore(settings, kind, currentTimeSlot));
      DeletePastMarkets(DeleteBefore(settings, kind, currentTimeSlot));
    }

    method MoveMarketsToPast(before: int)
      requires markets != pastMarkets
      modifies markets, pastMarkets
      ensures (markets.entries, pastMarkets.entries) ==
              MovedToPast(old(markets.entries), old(pastMarkets.entries),
                          SlotsBefore(old(markets.entries), Some(before)))
    {
      var slots := SlotsBefore(markets.entries, Some(before));
      ghost var m0, p0 := markets.entries, pastMarkets.entries;
      assert slots[0..] == slots;
      for i := 0 to |slots|
        invariant MovedToPast(m0, p0, slots) == MovedToPast(markets.entries, pastMarkets.entries, slots[i..])
      {
        assert slots[i..][0] == slots[i] && slots[i..][1..] == slots[i + 1..];
        var market := Lookup(markets.entries, slots[i]);
        if market.Some? {
          markets.entries := Popped(markets.entries, slots[i]);
          pastMarkets.entries := Assigned(pastMarkets.entries, market.value.(readonly := true));
        }
      }
    }

    method DeletePastMarkets(before: Option<int>)
      modifies pastMarkets
      ensures pastMarkets.entries == Deleted(old(pastMarkets.entries), SlotsBefore(old(pastMarkets.entries), before))
    {
      var slots := SlotsBefore(pastMarkets.entries, before);
      ghost var p0 := pastMarkets.entries;
      assert slots[0..] == slots;
      for i := 0 to |slots|
        invariant Deleted(p0, slots) == Deleted(pastMarkets.entries, slots[i..])
      {
        assert slots[i..][0] == slots[i] && slots[i..][1..] == slots[i + 1..];
        pastMarkets.entries := Popped(pastMarkets.entries, slots[i]);
      }
    }
  }

  class AreaMarkets {
    const settings: Settings
    const markets: MarketBuffer
    const pastMarkets: MarketBuffer
    const settlementMarkets: MarketBuffer
    const pastSettlementMarkets: MarketBuffer
    const spotRotator: MarketRotator
    const settlementRotator: MarketRotator

    function State(): Buffers
      reads markets, pastMarkets, settlementMarkets, pastSettlementMarkets
    {
      Buffers(markets.entries, pastMarkets.entries, settlementMarkets.entries, pastSettlementMarkets.entries)
    }

    predicate Wired() {
      && (markets != pastMarkets && markets != settlementMarkets && markets != pastSettlementMarkets)
      && (pastMarkets != settlementMarkets && pastMarkets != pastSettlementMarkets)
      && settlementMarkets != pastSettlementMarkets
      && spotRotator.settings == settings && spotRotator.kind == SpotMarkets
      && spotRotator.markets == markets && spotRotator.pastMarkets == pastMarkets
      && settlementRotator.settings == settings && settlementRotator.kind == SettlementMarkets
      && settlementRotator.markets == settlementMarkets && settlementRotator.pastMarkets == pastSettlementMarkets
    }

    constructor (settings: Settings)
      ensures Wired() && this.settings == settings && State() == Buffers([], [], [], [])
      ensures fresh(markets) && fresh(pastMarkets) && fresh(settlementMarkets) && fresh(pastSettlementMarkets)
    {
      this.settings := settings;
      var m := new MarketBuffer();
      var p := new MarketBuffer();
      var s := new MarketBuffer();
      var q := new MarketBuffer();
      markets, pastMarkets, settlementMarkets, pastSettlementMarkets := m, p, s, q;
      spotRotator := new MarketRotator(settings, SpotMarkets, m, p);
      settlementRotator := new MarketRotator(settings, SettlementMarkets, s, q);
    }

    method CycleMarkets(now: int)
      requires Wired()
      modifies markets, pastMarkets, settlementMarkets, pastSettlementMarkets
      ensures State() == Cycled(settings, old(State()), now)
    {
      spotRotator.Rotate(now);
      if settings.settlement {
        settlementRotator.Rotate(now);
      }
      var changed := CreateNewSpotMarket(now);
      if pastMarkets.entries != [] && settings.settlement {
        CreateSettlementMarket(pastMarkets.entries[|pastMarkets.entries| - 1].timeSlot);
      }
    }

    method CreateNewSpotMarket(currentTime: int) returns (changed: bool)
      modifies markets
      ensures changed == Lookup(old(markets.entries), currentTime).None?
      ensures markets.entries ==
              if changed then Assigned(old(markets.entries), SlotMarket(currentTime, false)) else old(markets.entries)
    {
      changed := Lookup(markets.entries, currentTime).None?;
      if changed {
        markets.entries := Assigned(markets.entries, SlotMarket(currentTime, false));
      }
    }

    method CreateSettlementMarket(timeSlot: int)
      modifies settlementMarkets
      ensures settlementMarkets.entries == Assigned(old(settlementMarkets.entries), SlotMarket(timeSlot, false))
    {
      settlementMarkets.entries := Assigned(settlementMarkets.entries, SlotMarket(timeSlot, false));
    }
  }

  // ----- one rotation, when the slots are in order -----

  ghost predicate Ordered(b: Buffer) {
    forall i, j :: 0 <= i < j < |b| ==> b[i].timeSlot < b[j].timeSlot
  }

  // Everything in the first buffer is before everything in the second.
  ghost predicate Before(b: Buffer, c: Buffer) {
    forall i, j :: 0 <= i < |b| && 0 <= j < |c| ==> b[i].timeSlot < c[j].timeSlot
  }

  function From(b: Buffer, limit: int): Buffer {
    if b == [] then [] else (if b[0].timeSlot >= limit then [b[0]] else []) + From(b[1..], limit)
  }

  function ClosedBefore(b: Buffer, limit: int): Buffer {
    if b == [] then []
    else (if b[0].timeSlot < limit then [b[0].(readonly := true)] else []) + ClosedBefore(b[1..], limit)
  }

  lemma {:induction false} AssigningLater(b: Buffer, m: SlotMarket)
    requires forall i :: 0 <= i < |b| ==> b[i].timeSlot < m.timeSlot
    ensures Assigned(b, m) == b + [m] && Lookup(b, m.timeSlot).None?
  {
    if b != [] {
      AssigningLater(b[1..], m);
      assert b == [b[0]] + b[1..];
    }
  }

  // An ordered buffer loses a prefix to the past ones, which stay in order.
  lemma {:induction false} MovingIsExact(markets: Buffer, past: Buffer, limit: int)
    requires Ordered(markets) && Before(past, markets)
    ensures MovedToPast(markets, past, SlotsBefore(markets, Some(limit))) ==
            (From(markets, limit), past + ClosedBefore(markets, limit))
  {
    if markets == [] {
    } else if markets[0].timeSlot < limit {
      var m := markets[0].(readonly := true);
      AssigningLater(past, m);
      assert past + [m] + ClosedBefore(markets[1..], limit) == past + ([m] + ClosedBefore(markets[1..], limit));
      var slots, rest := SlotsBefore(markets, Some(limit)), SlotsBefore(markets[1..], Some(limit));
      assert slots == [markets[0].timeSlot] + rest && slots[1..] == rest;
      MovingIsExact(markets[1..], past + [m], limit);
      assert MovedToPast(markets, past, slots) == MovedToPast(markets[1..], past + [m], rest);
      assert From(markets, limit) == From(markets[1..], limit);
    } else {
      NothingBefore(markets, limit);
      assert past + [] == past;
    }
  }

  lemma {:induction false} NothingBefore(b: Buffer, limit: int)
    requires forall i :: 0 <= i < |b| ==> b[i].timeSlot >= limit
    ensures SlotsBefore(b, Some(limit)) == [] && From(b, limit) == b && ClosedBefore(b, limit) == []
  {
    if b != [] {
      NothingBefore(b[1..], limit);
      assert b == [b[0]] + b[1..];
    }
  }

  lemma {:induction false} DeletingIsExact(past: Buffer, limit: int)
    requires Ordered(past)
    ensures Deleted(past, SlotsBefore(past, Some(limit))) == From(past, limit)
  {
    if past == [] {
    } else if past[0].timeSlot < limit {
      assert ([past[0].timeSlot] + SlotsBefore(past[1..], Some(limit)))[1..] == SlotsBefore(past[1..], Some(limit));
      DeletingIsExact(past[1..], limit);
    } else {
      NothingBefore(past, limit);
    }
  }

  lemma {:induction false} NoLimitNoSlots(b: Buffer)
    ensures SlotsBefore(b, None) == []
  {
    if b != [] {
      NoLimitNoSlots(b[1..]);
    }
  }

  // ----- cycles, one slot apart -----

  // The clock at the k-th cycle.
  function SlotAt(c: Settings, start: int, k: nat): int {
    if k == 0 then start else SlotAt(c, start, k - 1) + c.slotLength
  }

  function AfterCycles(c: Settings, start: int, k: nat): Buffers {
    Cycled(c, if k == 0 then Buffers([], [], [], []) else AfterCycles(c, start, k - 1), SlotAt(c, start, k))
  }

  // The markets of those of the first k cycles whose slot is in [lo, hi).
  function Span(c: Settings, start: int, k: nat, lo: int, hi: int, readonly: bool): Buffer {
    if k == 0 then []
    else
      var t := SlotAt(c, start, k - 1);
      Span(c, start, k - 1, lo, hi, readonly) + if lo <= t < hi then [SlotMarket(t, readonly)] else []
  }

  // From when on past markets are kept; with everything retained, from before the start.
  function KeptFrom(c: Settings, start: int, kind: Kind, now: int): int {
    match DeleteBefore(c, kind, now)
    case Some(limit) => limit
    case None => start - c.maxAge - c.slotLength
  }

  // Whether past slots stay long enough for a settlement market to be opened for them.
  predicate Settles(c: Settings) {
    c.settlement && (c.retainPast || c.maxAge >= c.slotLength)
  }

  // What the buffers hold after the k-th cycle.
  function Expected(c: Settings, start: int, k: nat): Buffers {
    var now := SlotAt(c, start, k);
    var settled := Settles(c) && k > 0;
    Buffers([SlotMarket(now, false)],
            Span(c, start, k, KeptFrom(c, start, SpotMarkets, now), now, true),
            if settled then
              Span(c, start, k - 1, now - c.maxAge, now, false) + [SlotMarket(SlotAt(c, start, k - 1), false)]
            else [],
            if settled then
              Span(c, start, k - 1, KeptFrom(c, start, SettlementMarkets, now), now - c.maxAge, true)
            else [])
  }

  lemma {:induction false} SlotsRise(c: Settings, start: int, i: nat, j: nat)
    requires c.slotLength > 0 && i <= j
    ensures start <= SlotAt(c, start, i) <= SlotAt(c, start, j)
    ensures i < j ==> SlotAt(c, start, i) + c.slotLength <= SlotAt(c, start, j)
    decreases j
  {
    if i < j {
      SlotsRise(c, start, i, j - 1);
    } else if j > 0 {
      SlotsRise(c, start, i - 1, j - 1);
    }
  }

  // A slot of one of the first k cycles.
  ghost predicate IsCycle(c: Settings, start: int, k: nat, t: int) {
    exists i: nat :: i < k && SlotAt(c, start, i) == t
  }

  lemma SpanIn(c: Settings, start: int, k: nat, lo: int, hi: int, readonly: bool)
    requires c.slotLength > 0
    ensures forall m :: m in Span(c, start, k, lo, hi, readonly) <==>
              m.readonly == readonly && lo <= m.timeSlot < hi && IsCycle(c, start, k, m.timeSlot)
    ensures Ordered(Span(c, start, k, lo, hi, readonly))
    ensures forall i :: 0 <= i < |Span(c, start, k, lo, hi, readonly)| ==>
              lo <= Span(c, start, k, lo, hi, readonly)[i].timeSlot < hi &&
              (k > 0 && Span(c, start, k, lo, hi, readonly)[i].timeSlot <= SlotAt(c, start, k - 1))
  {
    SpanMembers(c, start, k, lo, hi, readonly);
    SpanOrdered(c, start, k, lo, hi, readonly);
  }

  lemma {:induction false} SpanOrdered(c: Settings, start: int, k: nat, lo: int, hi: int, readonly: bool)
    requires c.slotLength > 0
    ensures Ordered(Span(c, start, k, lo, hi, readonly))
    ensures forall i :: 0 <= i < |Span(c, start, k, lo, hi, readonly)| ==>
              lo <= Span(c, start, k, lo, hi, readonly)[i].timeSlot < hi &&
              (k > 0 && Span(c, start, k, lo, hi, readonly)[i].timeSlot <= SlotAt(c, start, k - 1))
  {
    if k > 0 {
      SpanOrdered(c, start, k - 1, lo, hi, readonly);
      if k > 1 {
        SlotsRise(c, start, k - 2, k - 1);
      }
    }
  }

  lemma {:induction false} SpanMembers(c: Settings, start: int, k: nat, lo: int, hi: int, readonly: bool)
    ensures forall m :: m in Span(c, start, k, lo, hi, readonly) <==>
              m.readonly == readonly && lo <= m.timeSlot < hi && IsCycle(c, start, k, m.timeSlot)
  {
    if k > 0 {
      SpanMembers(c, start, k - 1, lo, hi, readonly);
      var rest := Span(c, start, k - 1, lo, hi, readonly);
      var all := Span(c, start, k, lo, hi, readonly);
      forall m | m in all
        ensures m.readonly == readonly && lo <= m.timeSlot < hi
        ensures IsCycle(c, start, k, m.timeSlot)
      {
        if m in rest {
          var i: nat :| i < k - 1 && SlotAt(c, start, i) == m.timeSlot;
          assert i < k;
        } else {
          assert SlotAt(c, start, k - 1) == m.timeSlot;
        }
      }
      forall m: SlotMarket | m.readonly == readonly && lo <= m.timeSlot < hi && IsCycle(c, start, k, m.timeSlot)
        ensures m in all
      {
        var i: nat :| i < k && SlotAt(c, start, i) == m.timeSlot;
        if i < k - 1 {
          assert IsCycle(c, start, k - 1, m.timeSlot);
          assert m in rest;
        } else {
          assert m == SlotMarket(SlotAt(c, start, k - 1), readonly);
        }
      }
    }
  }

  lemma {:induction false} FromOfBoth(b: Buffer, d: Buffer, limit: int)
    ensures From(b + d, limit) == From(b, limit) + From(d, limit)
    ensures ClosedBefore(b + d, limit) == ClosedBefore(b, limit) + ClosedBefore(d, limit)
  {
    hide From, ClosedBefore;
    if b == [] {
      assert b + d == d;
      NothingFrom(limit);
    } else {
      assert (b + d)[1..] == b[1..] + d && (b + d)[0] == b[0];
      FromOfBoth(b[1..], d, limit);
      FromStep(b, limit);
      FromStep(b + d, limit);
    }
  }

  lemma NothingFrom(limit: int)
    ensures From([], limit) == [] && ClosedBefore([], limit) == []
  {
  }

  lemma FromStep(b: Buffer, limit: int)
    requires b != []
    ensures From(b, limit) == (if b[0].timeSlot >= limit then [b[0]] else []) + From(b[1..], limit)
    ensures ClosedBefore(b, limit) ==
            (if b[0].timeSlot < limit then [b[0].(readonly := true)] else []) + ClosedBefore(b[1..], limit)
  {
  }

  lemma FromOfOne(m: SlotMarket, limit: int)
    ensures From([m], limit) == if m.timeSlot >= limit then [m] else []
    ensures ClosedBefore([m], limit) == if m.timeSlot < limit then [m.(readonly := true)] else []
  {
    assert [m][1..] == [];
  }

  lemma {:induction false} FromSpan(c: Settings, start: int, k: nat, lo: int, hi: int, readonly: bool, limit: int)
    requires lo <= limit
    ensures From(Span(c, start, k, lo, hi, readonly), limit) == Span(c, start, k, limit, hi, readonly)
    ensures limit <= hi ==>
              ClosedBefore(Span(c, start, k, lo, hi, readonly), limit) == Span(c, start, k, lo, limit, true)
  {
    hide From, ClosedBefore;
    if k == 0 {
      NothingFrom(limit);
    } else {
      FromSpan(c, start, k - 1, lo, hi, readonly, limit);
      var t := SlotAt(c, start, k - 1);
      var newest := if lo <= t < hi then [SlotMarket(t, readonly)] else [];
      FromOfBoth(Span(c, start, k - 1, lo, hi, readonly), newest, limit);
      NothingFrom(limit);
      FromOfOne(SlotMarket(t, readonly), limit);
    }
  }

  lemma {:induction false} SpanWiderTop(c: Settings, start: int, k: nat, lo: int, hi: int, top: int, readonly: bool)
    requires c.slotLength > 0 && (k > 0 ==> SlotAt(c, start, k - 1) < hi && SlotAt(c, start, k - 1) < top)
    ensures Span(c, start, k, lo, hi, readonly) == Span(c, start, k, lo, top, readonly)
  {
    if k > 0 {
      if k > 1 {
        SlotsRise(c, start, k - 2, k - 1);
      }
      SpanWiderTop(c, start, k - 1, lo, hi, top, readonly);
    }
  }

  lemma {:induction false} SpansJoin(c: Settings, start: int, k: nat, lo: int, mid: int, hi: int, readonly: bool)
    requires c.slotLength > 0 && lo <= mid <= hi
    ensures Span(c, start, k, lo, mid, readonly) + Span(c, start, k, mid, hi, readonly) ==
            Span(c, start, k, lo, hi, readonly)
  {
    hide SlotAt, Span;
    SpanStep(c, start, k, lo, mid, readonly);
    SpanStep(c, start, k, mid, hi, readonly);
    SpanStep(c, start, k, lo, hi, readonly);
    if k > 0 {
      SpansJoin(c, start, k - 1, lo, mid, hi, readonly);
      var t := SlotAt(c, start, k - 1);
      var low, high := Span(c, start, k - 1, lo, mid, readonly), Span(c, start, k - 1, mid, hi, readonly);
      if t < mid {
        if k > 1 {
          SlotsRise(c, start, k - 2, k - 1);
        }
        SpanAbove(c, start, k - 1, mid, hi, readonly);
        assert low + high == low;
      } else {
        var last := if t < hi then [SlotMarket(t, readonly)] else [];
        assert low + [] == low;
        assert (low + high) + last == low + (high + last);
      }
    }
  }

  lemma SpanStep(c: Settings, start: int, k: nat, lo: int, hi: int, readonly: bool)
    ensures k == 0 ==> Span(c, start, k, lo, hi, readonly) == []
    ensures k > 0 ==>
              var t := SlotAt(c, start, k - 1);
              Span(c, start, k, lo, hi, readonly) ==
              Span(c, start, k - 1, lo, hi, readonly) + if lo <= t < hi then [SlotMarket(t, readonly)] else []
  {
  }

  lemma {:induction false} SpanAbove(c: Settings, start: int, k: nat, mid: int, hi: int, readonly: bool)
    requires c.slotLength > 0 && (k > 0 ==> SlotAt(c, start, k - 1) < mid)
    ensures Span(c, start, k, mid, hi, readonly) == []
  {
    if k > 0 {
      if k > 1 {
        SlotsRise(c, start, k - 2, k - 1);
      }
      SpanAbove(c, start, k - 1, mid, hi, readonly);
    }
  }

  // ----- the buffers after every cycle -----

  lemma SpanOfNext(c: Settings, start: int, k: nat, lo: int, readonly: bool)
    requires c.slotLength > 0
    ensures var t := SlotAt(c, start, k);
            Span(c, start, k + 1, lo, SlotAt(c, start, k + 1), readonly) ==
            Span(c, start, k, lo, t, readonly) + (if lo <= t then [SlotMarket(t, readonly)] else [])
  {
    if k > 0 {
      SlotsRise(c, start, k - 1, k);
    }
    SpanWiderTop(c, start, k, lo, SlotAt(c, start, k), SlotAt(c, start, k + 1), readonly);
  }

  lemma SpotStep(c: Settings, start: int, k: nat)
    requires c.slotLength > 0 && c.maxAge >= 0
    ensures var (was, now) := (SlotAt(c, start, k), SlotAt(c, start, k + 1));
            Rotated(c, SpotMarkets, Expected(c, start, k).markets, Expected(c, start, k).past, now) ==
            ([], Span(c, start, k + 1, KeptFrom(c, start, SpotMarkets, now), now, true))
  {
    var (was, now) := (SlotAt(c, start, k), SlotAt(c, start, k + 1));
    var past := Span(c, start, k, KeptFrom(c, start, SpotMarkets, was), was, true);
    SpanIn(c, start, k, KeptFrom(c, start, SpotMarkets, was), was, true);
    MovingIsExact([SlotMarket(was, false)], past, now);
    FromOfOne(SlotMarket(was, false), now);
    var moved := past + [SlotMarket(was, true)];
    SlotsRise(c, start, 0, k);
    DeletingPast(c, start, k, was, now, moved);
  }

  // Deleting from what is kept so far plus the newest slot.
  lemma DeletingPast(c: Settings, start: int, k: nat, was: int, now: int, moved: Buffer)
    requires c.slotLength > 0 && c.maxAge >= 0
    requires was == SlotAt(c, start, k) && now == SlotAt(c, start, k + 1) && start <= was
    requires moved == Span(c, start, k, KeptFrom(c, start, SpotMarkets, was), was, true) + [SlotMarket(was, true)]
    ensures Deleted(moved, SlotsBefore(moved, DeleteBefore(c, SpotMarkets, now))) ==
            Span(c, start, k + 1, KeptFrom(c, start, SpotMarkets, now), now, true)
  {
    var (lo, hi) := (KeptFrom(c, start, SpotMarkets, was), KeptFrom(c, start, SpotMarkets, now));
    SpanIn(c, start, k, lo, was, true);
    SpanOfNext(c, start, k, hi, true);
    if c.retainPast {
      NoLimitNoSlots(moved);
    } else {
      DeletingIsExact(moved, hi);
      FromOfBoth(Span(c, start, k, lo, was, true), [SlotMarket(was, true)], hi);
      FromOfOne(SlotMarket(was, true), hi);
      FromSpan(c, start, k, lo, was, true, hi);
    }
  }

  lemma SettlementStep(c: Settings, start: int, k: nat)
    requires c.slotLength > 0 && c.maxAge >= 0 && Settles(c) && k > 0
    ensures var now := SlotAt(c, start, k + 1);
            var e := Expected(c, start, k);
            var r := Rotated(c, SettlementMarkets, e.settlement, e.pastSettlement, now);
            && r.0 == Span(c, start, k, now - c.maxAge, now, false)
            && r.1 == Span(c, start, k, KeptFrom(c, start, SettlementMarkets, now), now - c.maxAge, true)
  {
    hide Span, MovedToPast, Deleted, SlotsBefore, KeptFrom, DeleteBefore, SlotAt;
    SettlementMoved(c, start, k);
    SlotsRise(c, start, k, k + 1);
    DeletingSettled(c, start, k, SlotAt(c, start, k), SlotAt(c, start, k + 1));
  }

  // The settlement markets of the k-th cycle: those young enough, and the newest.
  function Active(c: Settings, start: int, k: nat): Buffer
    requires k > 0
  {
    var was := SlotAt(c, start, k);
    Span(c, start, k - 1, was - c.maxAge, was, false) + [SlotMarket(SlotAt(c, start, k - 1), false)]
  }

  lemma SlotsAround(c: Settings, start: int, k: nat)
    requires c.slotLength > 0 && c.maxAge >= 0 && Settles(c) && k > 0
    ensures var (last, was, now) := (SlotAt(c, start, k - 1), SlotAt(c, start, k), SlotAt(c, start, k + 1));
            var keep := KeptFrom(c, start, SettlementMarkets, was);
            was == last + c.slotLength && now == was + c.slotLength && keep <= last && keep <= was - c.maxAge
  {
    SlotsRise(c, start, 0, k - 1);
  }

  lemma SettlementMoved(c: Settings, start: int, k: nat)
    requires c.slotLength > 0 && c.maxAge >= 0 && Settles(c) && k > 0
    ensures var next := SlotAt(c, start, k + 1) - c.maxAge;
            var keep := KeptFrom(c, start, SettlementMarkets, SlotAt(c, start, k));
            MovedToPast(Active(c, start, k), Span(c, start, k - 1, keep, SlotAt(c, start, k) - c.maxAge, true),
                        SlotsBefore(Active(c, start, k), Some(next))) ==
            (Span(c, start, k, next, SlotAt(c, start, k + 1), false), Span(c, start, k, keep, next, true))
  {
    hide Span, SlotAt, Active, From, ClosedBefore, Ordered, Before, MovedToPast, SlotsBefore, KeptFrom, Settles;
    var low := SlotAt(c, start, k) - c.maxAge;
    var past := Span(c, start, k - 1, KeptFrom(c, start, SettlementMarkets, SlotAt(c, start, k)), low, true);
    PastBeforeActive(c, start, k, KeptFrom(c, start, SettlementMarkets, SlotAt(c, start, k)), low);
    ActiveParts(c, start, k);
    MovingIsExact(Active(c, start, k), past, SlotAt(c, start, k + 1) - c.maxAge);
  }

  lemma ActiveParts(c: Settings, start: int, k: nat)
    requires c.slotLength > 0 && c.maxAge >= 0 && Settles(c) && k > 0
    ensures var (was, now) := (SlotAt(c, start, k), SlotAt(c, start, k + 1));
            var (keep, next) := (KeptFrom(c, start, SettlementMarkets, was), now - c.maxAge);
            && From(Active(c, start, k), next) == Span(c, start, k, next, now, false)
            && Span(c, start, k - 1, keep, was - c.maxAge, true) + ClosedBefore(Active(c, start, k), next) ==
               Span(c, start, k, keep, next, true)
  {
    hide Span, SlotAt, From, ClosedBefore, KeptFrom;
    var was, now, last := SlotAt(c, start, k), SlotAt(c, start, k + 1), SlotAt(c, start, k - 1);
    var low, next := was - c.maxAge, now - c.maxAge;
    SlotsAround(c, start, k);
    FromOfBoth(Span(c, start, k - 1, low, was, false), [SlotMarket(last, false)], next);
    FromOfOne(SlotMarket(last, false), next);
    StayingActive(c, start, k, low, next);
    LeavingActive(c, start, k, KeptFrom(c, start, SettlementMarkets, was), low, next);
  }

  // The settlement markets of a cycle are in order, and later than those settled before.
  lemma PastBeforeActive(c: Settings, start: int, k: nat, keep: int, low: int)
    requires c.slotLength > 0 && k > 0 && low == SlotAt(c, start, k) - c.maxAge
    ensures Ordered(Active(c, start, k)) && Before(Span(c, start, k - 1, keep, low, true), Active(c, start, k))
  {
    OlderIsBefore(c, start, k, low, SlotAt(c, start, k), false);
    OlderIsBefore(c, start, k, keep, low, true);
    hide Span, SlotAt;
  }

  lemma DeletingSettled(c: Settings, start: int, k: nat, was: int, now: int)
    requires c.slotLength > 0 && c.maxAge >= 0 && was <= now
    ensures var moved := Span(c, start, k, KeptFrom(c, start, SettlementMarkets, was), now - c.maxAge, true);
            Deleted(moved, SlotsBefore(moved, DeleteBefore(c, SettlementMarkets, now))) ==
            Span(c, start, k, KeptFrom(c, start, SettlementMarkets, now), now - c.maxAge, true)
  {
    hide Span, Ordered;
    var keep, keepNext := KeptFrom(c, start, SettlementMarkets, was), KeptFrom(c, start, SettlementMarkets, now);
    var moved := Span(c, start, k, keep, now - c.maxAge, true);
    if c.retainPast {
      NoLimitNoSlots(moved);
    } else {
      SpanIn(c, start, k, keep, now - c.maxAge, true);
      DeletingIsExact(moved, keepNext);
      FromSpan(c, start, k, keep, now - c.maxAge, true, keepNext);
    }
  }

  lemma OlderIsBefore(c: Settings, start: int, k: nat, lo: int, hi: int, readonly: bool)
    requires c.slotLength > 0 && k > 0
    ensures var older := Span(c, start, k - 1, lo, hi, readonly);
            Ordered(older) && (forall i :: 0 <= i < |older| ==> lo <= older[i].timeSlot < hi)
            && (forall i :: 0 <= i < |older| ==> older[i].timeSlot < SlotAt(c, start, k - 1))
  {
    SpanIn(c, start, k - 1, lo, hi, readonly);
    if k > 1 {
      SlotsRise(c, start, k - 2, k - 1);
    }
  }

  lemma StayingActive(c: Settings, start: int, k: nat, low: int, next: int)
    requires c.slotLength > 0 && c.maxAge >= 0 && k > 0 && low <= next
    ensures var (was, now, last) := (SlotAt(c, start, k), SlotAt(c, start, k + 1), SlotAt(c, start, k - 1));
            From(Span(c, start, k - 1, low, was, false), next) +
            (if last >= next then [SlotMarket(last, false)] else []) ==
            Span(c, start, k, next, now, false)
  {
    var was := SlotAt(c, start, k);
    FromSpan(c, start, k - 1, low, was, false, next);
    SlotsRise(c, start, k - 1, k);
    SpanWiderTop(c, start, k, next, was, SlotAt(c, start, k + 1), false);
  }

  lemma LeavingActive(c: Settings, start: int, k: nat, keep: int, low: int, next: int)
    requires c.slotLength > 0 && k > 0 && keep <= low <= next <= SlotAt(c, start, k + 1)
    requires keep <= SlotAt(c, start, k - 1)
    ensures var (was, last) := (SlotAt(c, start, k), SlotAt(c, start, k - 1));
            Span(c, start, k - 1, keep, low, true) +
            (ClosedBefore(Span(c, start, k - 1, low, was, false), next) +
             (if last < next then [SlotMarket(last, true)] else [])) ==
            Span(c, start, k, keep, next, true)
  {
    var (was, now, last) := (SlotAt(c, start, k), SlotAt(c, start, k + 1), SlotAt(c, start, k - 1));
    if k > 1 {
      SlotsRise(c, start, k - 2, k - 1);
    }
    SpanWiderTop(c, start, k - 1, low, was, now, false);
    FromSpan(c, start, k - 1, low, now, false, next);
    SpansJoin(c, start, k - 1, keep, low, next, true);
    var (a, b) := (Span(c, start, k - 1, keep, low, true), Span(c, start, k - 1, low, next, true));
    var d := if last < next then [SlotMarket(last, true)] else [];
    assert a + (b + d) == (a + b) + d;
  }

  lemma FirstCycle(c: Settings, start: int)
    ensures AfterCycles(c, start, 0) == Expected(c, start, 0)
  {
    NothingToRotate(c, start);
  }

  lemma {:induction false} BuffersAfterCycle(c: Settings, start: int, k: nat)
    requires c.slotLength > 0 && c.maxAge >= 0
    ensures AfterCycles(c, start, k) == Expected(c, start, k)
  {
    hide Span, SlotAt, Rotated, KeptFrom, Settles;
    if k == 0 {
      FirstCycle(c, start);
    } else {
      BuffersAfterCycle(c, start, k - 1);
      SpotStep(c, start, k - 1);
      SettlementOfCycle(c, start, k);
      assert AfterCycles(c, start, k) == Cycled(c, Expected(c, start, k - 1), SlotAt(c, start, k));
    }
  }

  lemma SettlementOfCycle(c: Settings, start: int, k: nat)
    requires c.slotLength > 0 && c.maxAge >= 0 && k > 0
    ensures var now := SlotAt(c, start, k);
            var before := Expected(c, start, k - 1);
            var past := Span(c, start, k, KeptFrom(c, start, SpotMarkets, now), now, true);
            var (settlement, pastSettlement) :=
              if c.settlement then Rotated(c, SettlementMarkets, before.settlement, before.pastSettlement, now)
              else (before.settlement, before.pastSettlement);
            && pastSettlement == Expected(c, start, k).pastSettlement
            && (if past != [] && c.settlement then Assigned(settlement, SlotMarket(past[|past| - 1].timeSlot, false))
                else settlement) == Expected(c, start, k).settlement
  {
    hide Span, SlotAt, Rotated, KeptFrom;
    LastOfPast(c, start, k);
    if Settles(c) {
      SettlementRotated(c, start, k);
      NewestIsAppended(c, start, k);
    } else {
      NothingToRotate(c, SlotAt(c, start, k));
    }
  }

  // The most recent past market is the last cycle's, if past markets stay long enough.
  lemma LastOfPast(c: Settings, start: int, k: nat)
    requires c.slotLength > 0 && c.maxAge >= 0 && k > 0
    ensures var now := SlotAt(c, start, k);
            var past := Span(c, start, k, KeptFrom(c, start, SpotMarkets, now), now, true);
            && (Settles(c) ==> past != [] && past[|past| - 1].timeSlot == SlotAt(c, start, k - 1))
            && (c.settlement && !Settles(c) ==> past == [])
  {
    var (now, last) := (SlotAt(c, start, k), SlotAt(c, start, k - 1));
    var keep := KeptFrom(c, start, SpotMarkets, now);
    SlotsRise(c, start, 0, k - 1);
    if Settles(c) {
      assert Span(c, start, k, keep, now, true) == Span(c, start, k - 1, keep, now, true) + [SlotMarket(last, true)];
    } else if c.settlement {
      SpanAbove(c, start, k, keep, now, true);
    }
  }

  lemma SettlementRotated(c: Settings, start: int, k: nat)
    requires c.slotLength > 0 && c.maxAge >= 0 && Settles(c) && k > 0
    ensures var (before, now) := (Expected(c, start, k - 1), SlotAt(c, start, k));
            Rotated(c, SettlementMarkets, before.settlement, before.pastSettlement, now) ==
            (Span(c, start, k - 1, now - c.maxAge, now, false), Expected(c, start, k).pastSettlement)
  {
    if k > 1 {
      SettlementStep(c, start, k - 1);
    } else {
      NothingToRotate(c, SlotAt(c, start, k));
    }
  }

  lemma NewestIsAppended(c: Settings, start: int, k: nat)
    requires c.slotLength > 0 && k > 0
    ensures var (now, newest) := (SlotAt(c, start, k), SlotMarket(SlotAt(c, start, k - 1), false));
            var older := Span(c, start, k - 1, now - c.maxAge, now, false);
            Assigned(older, newest) == older + [newest]
  {
    var now := SlotAt(c, start, k);
    OlderIsBefore(c, start, k, now - c.maxAge, now, false);
    AssigningLater(Span(c, start, k - 1, now - c.maxAge, now, false), SlotMarket(SlotAt(c, start, k - 1), false));
  }

  lemma NothingToRotate(c: Settings, now: int)
    ensures Rotated(c, SettlementMarkets, [], [], now) == ([], [])
  {
  }

  // After the k-th cycle the open spot market is exactly the current slot's; the past ones are
  // all closed and are exactly the slots of earlier cycles inside the retained window; a
  // settlement market is open only for a slot whose past market is kept, and for every one of them
  // unless past markets are kept for ever; and no more than one past settlement market is kept.
  lemma BuffersInEveryCycle(c: Settings, start: int, k: nat)
    requires c.slotLength > 0 && c.maxAge >= 0
    ensures var b, now := AfterCycles(c, start, k), SlotAt(c, start, k);
            && b.markets == [SlotMarket(now, false)]
            && (forall m :: m in b.past <==>
                  m.readonly && IsCycle(c, start, k, m.timeSlot)
                  && (c.retainPast || m.timeSlot >= (if c.settlement then now - c.maxAge else now - c.slotLength)))
            && Ordered(b.past)
            && (forall m :: m in b.settlement ==> !m.readonly && SlotMarket(m.timeSlot, true) in b.past)
            && (c.settlement && !c.retainPast ==>
                  forall m :: m in b.past ==> SlotMarket(m.timeSlot, false) in b.settlement)
            && (!c.settlement ==> b.settlement == [] && b.pastSettlement == [])
            && (forall m :: m in b.pastSettlement ==> m.readonly)
            && (!c.retainPast ==> |b.pastSettlement| <= 1)
  {
    hide Span, AfterCycles, IsCycle, Ordered;
    BuffersAfterCycle(c, start, k);
    PastMembers(c, start, k);
    SettlementMembers(c, start, k);
    SettledMembers(c, start, k);
    CyclesAreEarlier(c, start, k);
  }

  lemma CyclesAreEarlier(c: Settings, start: int, k: nat)
    requires c.slotLength > 0
    ensures forall t :: IsCycle(c, start, k, t) ==> start <= t <= SlotAt(c, start, k) - c.slotLength
    ensures k > 0 ==> IsCycle(c, start, k, SlotAt(c, start, k - 1))
    ensures k > 0 ==> SlotAt(c, start, k - 1) == SlotAt(c, start, k) - c.slotLength
  {
    forall t | IsCycle(c, start, k, t) ensures start <= t <= SlotAt(c, start, k) - c.slotLength {
      var i: nat :| i < k && SlotAt(c, start, i) == t;
      SlotsRise(c, start, 0, i);
      SlotsRise(c, start, i, k);
    }
  }

  lemma PastMembers(c: Settings, start: int, k: nat)
    requires c.slotLength > 0 && c.maxAge >= 0
    ensures var (past, now) := (Expected(c, start, k).past, SlotAt(c, start, k));
            && Ordered(past)
            && forall m :: m in past <==>
                 m.readonly && IsCycle(c, start, k, m.timeSlot)
                 && (c.retainPast || m.timeSlot >= (if c.settlement then now - c.maxAge else now - c.slotLength))
  {
    var now := SlotAt(c, start, k);
    SpanIn(c, start, k, KeptFrom(c, start, SpotMarkets, now), now, true);
    CyclesAreEarlier(c, start, k);
    SlotsRise(c, start, 0, k);
    hide Span, SlotAt, IsCycle, Ordered;
  }

  lemma SettledMembers(c: Settings, start: int, k: nat)
    requires c.slotLength > 0 && c.maxAge >= 0
    ensures var settled := Expected(c, start, k).pastSettlement;
            && (forall m :: m in settled ==> m.readonly)
            && (!c.retainPast ==> |settled| <= 1)
  {
    var now := SlotAt(c, start, k);
    hide Span, SlotAt, IsCycle, Ordered;
    if Settles(c) && k > 0 {
      SpanIn(c, start, k - 1, KeptFrom(c, start, SettlementMarkets, now), now - c.maxAge, true);
      if !c.retainPast {
        AtMostOne(c, start, k - 1, now - c.maxAge - c.slotLength, now - c.maxAge);
      }
    }
  }

  lemma SettlementMembers(c: Settings, start: int, k: nat)
    requires c.slotLength > 0 && c.maxAge >= 0
    ensures var now := SlotAt(c, start, k);
            forall m :: m in Expected(c, start, k).settlement <==>
              (Settles(c) && k > 0 && !m.readonly && IsCycle(c, start, k, m.timeSlot) &&
               (m.timeSlot >= now - c.maxAge || m.timeSlot == SlotAt(c, start, k - 1)))
  {
    if Settles(c) && k > 0 {
      var j: nat := k - 1;
      var (now, last) := (SlotAt(c, start, k), SlotAt(c, start, j));
      SpanIn(c, start, j, now - c.maxAge, now, false);
      forall t ensures IsCycle(c, start, k, t) <==> IsCycle(c, start, j, t) || t == last {
        if IsCycle(c, start, k, t) {
          var i: nat :| i < k && SlotAt(c, start, i) == t;
          assert i < j || t == last;
        }
      }
      CyclesAreEarlier(c, start, k);
    }
  }

  // Two slots of the same window of one slot length are the same.
  lemma AtMostOne(c: Settings, start: int, k: nat, lo: int, hi: int)
    requires c.slotLength > 0 && hi <= lo + c.slotLength
    ensures |Span(c, start, k, lo, hi, true)| <= 1
  {
    var b := Span(c, start, k, lo, hi, true);
    SpanIn(c, start, k, lo, hi, true);
    if |b| > 1 {
      assert b[0] in b && b[1] in b;
      var i: nat :| i < k && SlotAt(c, start, i) == b[0].timeSlot;
      var j: nat :| j < k && SlotAt(c, start, j) == b[1].timeSlot;
      if i <= j {
        SlotsRise(c, start, i, j);
      } else {
        SlotsRise(c, start, j, i);
      }
      assert false;
    }
  }
}
