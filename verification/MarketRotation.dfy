/** Rotation of the future and forward markets: which slots and orders leave, and which stay. */
module MarketRotation {
  import opened MarketState
  import opened FutureOrders
  import opened FutureSlots

  // A forward market has parameters for its open slots only, and for each of them.
  ghost predicate InfoMatches(b: Block, s: Slots) {
    && (forall t :: HasParams(s.info, t) <==> t in s.bids.slots)
    && (forall p :: p in s.info ==> p.closingTime == b.closing(p.deliveryStart))
  }

  function ClosedDeliveries(info: seq<SlotParams>, now: int): seq<int> {
    if info == [] then []
    else
      var last := info[|info| - 1];
      ClosedDeliveries(info[..|info| - 1], now) + if last.closingTime <= now then [last.deliveryStart] else []
  }

  function WithoutSlot(info: seq<SlotParams>, t: int): seq<SlotParams> {
    if info == [] then []
    else (if info[0].deliveryStart == t then [] else [info[0]]) + WithoutSlot(info[1..], t)
  }

  function WithoutSlots(info: seq<SlotParams>, slots: seq<int>): seq<SlotParams> {
    if slots == [] then info
    else WithoutSlot(WithoutSlots(info, slots[..|slots| - 1]), slots[|slots| - 1])
  }

  // One expiry after the other, each up to one of the given slots.
  ghost function KeptAfterAll(s: Slots, slots: seq<int>): Slots {
    if slots == [] then s else SlotsKept(KeptAfterAll(s, slots[..|slots| - 1]), Later(slots[|slots| - 1]))
  }

  ghost function Rotated(s: Slots, now: int): Slots {
    var closed := ClosedDeliveries(s.info, now);
    KeptAfterAll(s, closed).(info := WithoutSlots(s.info, closed))
  }

  predicate ClosesAfter(b: Block, now: int, t: int) {
    b.closing(t) > now
  }

  ghost function OpenAt(b: Block, now: int): iset<int> {
    iset t: int | ClosesAfter(b, now, t)
  }

  class ForwardMarketRotator {
    const markets: FutureMarkets

    constructor (markets: FutureMarkets)
      ensures this.markets == markets
    {
      this.markets := markets;
    }

    method Rotate(currentTimeSlot: int, isItTimeToRotate: bool)
      requires markets.Valid()
      modifies markets, markets.offers, markets.bids
      ensures markets.Valid()
      ensures markets.State() ==
              if isItTimeToRotate then Rotated(old(markets.State()), currentTimeSlot) else old(markets.State())
    {
      hide SlotsCoherent, WellFormed, SlotsKept;
      if isItTimeToRotate {
        var info := markets.openMarketSlotInfo;
        var slotsDeleted := [];
        for i := 0 to |info|
          invariant markets.Valid()
          invariant slotsDeleted == ClosedDeliveries(info[..i], currentTimeSlot)
          invariant markets.openMarketSlotInfo == info
          invariant markets.State() == KeptAfterAll(old(markets.State()), slotsDeleted)
        {
          assert info[..i + 1][..i] == info[..i];
          if info[i].closingTime <= currentTimeSlot {
            markets.DeleteOrdersInOldFutureMarkets(info[i].deliveryStart);
            assert (slotsDeleted + [info[i].deliveryStart])[..|slotsDeleted|] == slotsDeleted;
            slotsDeleted := slotsDeleted + [info[i].deliveryStart];
          }
        }
        assert info[..|info|] == info;
        ghost var cleaned := markets.State();
        for i := 0 to |slotsDeleted|
          invariant markets.State() == cleaned.(info := WithoutSlots(info, slotsDeleted[..i]))
        {
          assert slotsDeleted[..i + 1][..i] == slotsDeleted[..i];
          markets.openMarketSlotInfo := WithoutSlot(markets.openMarketSlotInfo, slotsDeleted[i]);
        }
        assert slotsDeleted[..|slotsDeleted|] == slotsDeleted;
        CoherenceIgnoresInfo(cleaned, markets.State());
      }
    }
  }

  lemma CoherenceIgnoresInfo(s: Slots, s': Slots)
    requires SlotsCoherent(s) && s' == s.(info := s'.info)
    ensures SlotsCoherent(s')
  {
  }

  // ----- several expiries are one -----

  predicate LaterThanAll(s: int, slots: seq<int>) {
    forall t :: t in slots ==> s > t
  }

  ghost function AfterAll(slots: seq<int>): iset<int> {
    iset s: int | LaterThanAll(s, slots)
  }

  lemma KeptTwice(x: Indexed, first: iset<int>, second: iset<int>)
    ensures Kept(Kept(x, first), second) == Kept(x, first * second)
  {
    OnlyTwice(x.data, first, second);
  }

  lemma {:induction false} KeptAfterAllIs(s: Slots, slots: seq<int>)
    ensures var r := KeptAfterAll(s, slots);
            && r.offers == Kept(s.offers, AfterAll(slots)) && r.bids == Kept(s.bids, AfterAll(slots))
            && r.trades == TradesIn(s.trades, AfterAll(slots)) && r.info == s.info
    decreases |slots|
  {
    if slots == [] {
      KeptEverything(s.offers, AfterAll(slots));
      KeptEverything(s.bids, AfterAll(slots));
      TradesInEverything(s.trades, AfterAll(slots));
    } else {
      var before, last := slots[..|slots| - 1], slots[|slots| - 1];
      KeptAfterAllIs(s, before);
      LaterThanOneMore(slots);
      assert AfterAll(before) * Later(last) == AfterAll(slots);
      KeptTwice(s.offers, AfterAll(before), Later(last));
      KeptTwice(s.bids, AfterAll(before), Later(last));
      TradesInTwice(s.trades, AfterAll(before), Later(last));
    }
  }

  lemma LaterThanOneMore(slots: seq<int>)
    requires slots != []
    ensures forall s :: LaterThanAll(s, slots) <==> LaterThanAll(s, slots[..|slots| - 1]) && s > slots[|slots| - 1]
  {
    var before, last := slots[..|slots| - 1], slots[|slots| - 1];
    assert slots == before + [last];
    assert last in slots;
    forall s ensures LaterThanAll(s, slots) <==> LaterThanAll(s, before) && s > last {
      if LaterThanAll(s, slots) {
        forall t | t in before ensures s > t {
          assert t in slots;
        }
      }
    }
  }

  lemma KeptEverything(x: Indexed, keep: iset<int>)
    requires forall t :: t in keep
    ensures Kept(x, keep) == x
  {
    OnlyWhole(x.data, keep);
    var y := Kept(x, keep);
    assert forall t :: t in y.slots <==> t in x.slots;
    assert y.slots == x.slots;
  }

  lemma {:induction false} TradesInEverything(trades: seq<Trade>, keep: iset<int>)
    requires forall t :: t in keep
    ensures TradesIn(trades, keep) == trades
  {
    if trades != [] {
      TradesInEverything(trades[1..], keep);
      assert trades == [trades[0]] + trades[1..];
    }
  }

  lemma KeptSame(x: Indexed, keep: iset<int>, other: iset<int>)
    requires Coherent(x) && forall t :: t in x.slots ==> (t in keep <==> t in other)
    ensures Kept(x, keep) == Kept(x, other)
  {
    OnlySame(x.data, keep, other);
    var y, z := Kept(x, keep), Kept(x, other);
    assert forall t :: t in y.slots <==> t in z.slots;
    assert y.slots == z.slots;
  }

  // ----- which slots are closed -----

  lemma {:induction false} ClosedDeliveriesIff(info: seq<SlotParams>, now: int)
    ensures forall t :: t in ClosedDeliveries(info, now) <==>
                        exists p :: p in info && p.deliveryStart == t && p.closingTime <= now
    decreases |info|
  {
    if info != [] {
      var before, last := info[..|info| - 1], info[|info| - 1];
      ClosedDeliveriesIff(before, now);
      assert info == before + [last];
      var closed := ClosedDeliveries(info, now);
      forall t ensures t in closed <==> exists p :: p in info && p.deliveryStart == t && p.closingTime <= now {
        if t in ClosedDeliveries(before, now) {
          var p :| p in before && p.deliveryStart == t && p.closingTime <= now;
          assert p in info;
        } else if exists p :: p in info && p.deliveryStart == t && p.closingTime <= now {
          var p :| p in info && p.deliveryStart == t && p.closingTime <= now;
          assert p == last;
        }
        assert last in info;
      }
    }
  }

  lemma {:induction false} WithoutSlotIff(info: seq<SlotParams>, t: int)
    ensures forall p :: p in WithoutSlot(info, t) <==> p in info && p.deliveryStart != t
  {
    if info != [] {
      WithoutSlotIff(info[1..], t);
      assert info == [info[0]] + info[1..];
    }
  }

  lemma {:induction false} WithoutSlotsIff(info: seq<SlotParams>, slots: seq<int>)
    ensures forall p :: p in WithoutSlots(info, slots) <==> p in info && p.deliveryStart !in slots
    decreases |slots|
  {
    if slots != [] {
      var before, last := slots[..|slots| - 1], slots[|slots| - 1];
      WithoutSlotsIff(info, before);
      WithoutSlotIff(WithoutSlots(info, before), last);
      assert slots == before + [last];
    }
  }

  lemma HasParamsIff(info: seq<SlotParams>, t: int)
    ensures HasParams(info, t) <==> exists p :: p in info && p.deliveryStart == t
  {
    if HasParams(info, t) {
      var i :| 0 <= i < |info| && info[i].deliveryStart == t;
      assert info[i] in info;
    }
  }

  // Of the open slots, those that have closed are exactly the ones some closed slot is not
  // before: closing times keep the order of the slots.
  lemma ClosedSlots(b: Block, s: Slots, now: int, t: int)
    requires WellFormed(b) && InfoMatches(b, s) && t in s.bids.slots
    ensures var closed := ClosedDeliveries(s.info, now);
            && (t in closed <==> !ClosesAfter(b, now, t))
            && (LaterThanAll(t, closed) <==> ClosesAfter(b, now, t))
  {
    var closed := ClosedDeliveries(s.info, now);
    ClosedDeliveriesIff(s.info, now);
    HasParamsIff(s.info, t);
    if ClosesAfter(b, now, t) {
      forall u | u in closed ensures t > u {
        assert b.closing(u) <= now;
      }
    }
  }

  // Although each closed slot makes the market drop everything up to that slot, precisely the
  // slots whose closing time has come lose their orders and trades, and the parameters that
  // remain are those of the slots that remain.
  lemma RotationIsExact(b: Block, s: Slots, now: int)
    requires WellFormed(b) && SlotsCoherent(s) && InfoMatches(b, s)
    ensures var r := Rotated(s, now);
            && r.offers == Kept(s.offers, OpenAt(b, now)) && r.bids == Kept(s.bids, OpenAt(b, now))
            && r.trades == TradesIn(s.trades, OpenAt(b, now))
            && (forall p :: p in r.info <==> p in s.info && p.closingTime > now)
            && InfoMatches(b, r) && SlotsCoherent(r)
  {
    var closed := ClosedDeliveries(s.info, now);
    var r := Rotated(s, now);
    KeptAfterAllIs(s, closed);
    WithoutSlotsIff(s.info, closed);
    forall t | t in s.bids.slots
      ensures t in AfterAll(closed) <==> t in OpenAt(b, now)
      ensures t in closed <==> t !in OpenAt(b, now)
    {
      ClosedSlots(b, s, now, t);
    }
    KeptSame(s.offers, AfterAll(closed), OpenAt(b, now));
    KeptSame(s.bids, AfterAll(closed), OpenAt(b, now));
    TradesInSame(s.trades, AfterAll(closed), OpenAt(b, now));
    KeepingSlotsKeepsCoherence(s, OpenAt(b, now));
    forall p | p in s.info ensures p.deliveryStart in s.bids.slots {
      HasParamsIff(s.info, p.deliveryStart);
    }
    forall t ensures HasParams(r.info, t) <==> t in r.bids.slots {
      HasParamsIff(s.info, t);
      HasParamsIff(r.info, t);
    }
  }
}
