/** The slots of a future or forward market: opened by one loop, expired by another. Times are
    minutes on an integer line. */
module FutureSlots {
  import opened Numeric
  import opened Books
  import opened MarketState
  import opened FutureOrders

  // ----- the calendar of a market block -----

  datatype SlotParams = SlotParams(openingTime: int, closingTime: int, deliveryStart: int, deliveryEnd: int)

  // What the constructor of the slot parameters asserts.
  predicate Sound(p: SlotParams) {
    p.deliveryEnd > p.deliveryStart && p.closingTime <= p.deliveryStart && p.closingTime > p.openingTime
  }

  // First and last slot that may be open at a time, the slot after a slot, and a slot's closing
  // and opening time (the latter also depends on when it is opened).
  datatype Block = Block(
    start: int -> int, end: int -> int, next: int -> int, closing: int -> int, opening: (int, int) -> int)

  // Slots have a positive duration and close, in their order, no later than their delivery
  // starts; a slot the loop can reach opens before it closes.
  ghost predicate WellFormed(b: Block) {
    && (forall t :: b.next(t) > t)
    && (forall t :: b.closing(t) <= t)
    && (forall s, t :: s <= t ==> b.closing(s) <= b.closing(t))
    && (forall now, t :: Reachable(b, now, t) ==> b.opening(now, t) < b.closing(t))
  }

  predicate Reachable(b: Block, now: int, t: int) {
    b.start(now) <= t <= b.end(now) && b.closing(t) > now
  }

  function FutureBlock(slotLength: int, duration: int): Block {
    Block(now => now + slotLength, now => now + duration, t => t + slotLength, t => t, (now, t) => t - duration)
  }

  const DAY := 1440

  const INTRADAY := Block(now => now + 30, now => now + DAY, t => t + 15, t => t - 15, (now, t) => now)

  const DAY_FORWARD := Block(
    now => now / DAY * DAY + DAY, now => now / DAY * DAY + 8 * DAY - 60, t => t + 60, t => t - DAY, (now, t) => now)

  // Whatever the configured duration of the future market: a duration no longer than zero opens
  // no slot at all.
  lemma BlocksAreWellFormed(slotLength: int, duration: int)
    requires slotLength > 0
    ensures WellFormed(FutureBlock(slotLength, duration)) && WellFormed(INTRADAY) && WellFormed(DAY_FORWARD)
  {
    FutureBlockIsWellFormed(slotLength, duration);
    hide WellFormed;
  }

  lemma FutureBlockIsWellFormed(slotLength: int, duration: int)
    requires slotLength > 0
    ensures WellFormed(FutureBlock(slotLength, duration))
  {
    var b := FutureBlock(slotLength, duration);
    forall now, t | Reachable(b, now, t) ensures b.opening(now, t) < b.closing(t) {
      assert b.start(now) == now + slotLength && b.end(now) == now + duration;
    }
  }

  // ----- the slots of one market -----

  datatype Slots = Slots(
    offers: Indexed, bids: Indexed, trades: seq<Trade>, info: seq<SlotParams>, events: seq<Event>)

  // Both dictionaries agree with their slot lists and know the same slots, and every trade was
  // made in one of them.
  ghost predicate SlotsCoherent(s: Slots) {
    && Coherent(s.offers) && Coherent(s.bids)
    && s.offers.slots.Keys == s.bids.slots.Keys
    && (forall t :: t in s.trades ==> t.timeSlot in s.bids.slots)
  }

  predicate IsLater(s: int, t: int) {
    s > t
  }

  ghost function Later(t: int): iset<int> {
    iset s: int | IsLater(s, t)
  }

  ghost function Outside(keep: iset<int>): iset<int> {
    iset s: int | s !in keep
  }

  ghost function TradesIn(trades: seq<Trade>, keep: iset<int>): seq<Trade> {
    if trades == [] then []
    else (if trades[0].timeSlot in keep then [trades[0]] else []) + TradesIn(trades[1..], keep)
  }

  function Deletions(ofOffers: bool, orders: Book): seq<Event> {
    if orders == [] then []
    else [if ofOffers then OfferDeleted(orders[0]) else BidDeleted(orders[0])] + Deletions(ofOffers, orders[1..])
  }

  ghost function SlotsKept(s: Slots, keep: iset<int>): Slots {
    Slots(Kept(s.offers, keep), Kept(s.bids, keep), TradesIn(s.trades, keep), s.info,
          s.events + Deletions(true, Only(s.offers.data, Outside(keep)))
                   + Deletions(false, Only(s.bids.data, Outside(keep))))
  }

  // ----- opening slots -----

  predicate Opens(b: Block, known: set<int>, inSimulation: int -> bool, now: int, t: int) {
    t !in known && inSimulation(t) && b.closing(t) > now
  }

  ghost function OpenedFrom(b: Block, known: set<int>, inSimulation: int -> bool, now: int, t: int): seq<int>
    requires WellFormed(b)
    decreases b.end(now) - t
  {
    if t > b.end(now) then []
    else (if Opens(b, known, inSimulation, now, t) then [t] else []) +
         OpenedFrom(b, known, inSimulation, now, b.next(t))
  }

  ghost function Opened(b: Block, known: set<int>, inSimulation: int -> bool, now: int): seq<int>
    requires WellFormed(b)
  {
    OpenedFrom(b, known, inSimulation, now, b.start(now))
  }

  function ParamsOf(b: Block, now: int, t: int): SlotParams {
    SlotParams(b.opening(now, t), b.closing(t), t, b.next(t))
  }

  predicate HasParams(info: seq<SlotParams>, t: int) {
    exists i :: 0 <= i < |info| && info[i].deliveryStart == t
  }

  function WithParams(info: seq<SlotParams>, b: Block, now: int, created: seq<int>): seq<SlotParams>
    decreases |created|
  {
    if created == [] then info
    else WithParams(if HasParams(info, created[0]) then info else info + [ParamsOf(b, now, created[0])],
                    b, now, created[1..])
  }

  function WithSlots(slots: map<int, Book>, created: seq<int>): map<int, Book> {
    slots + map t | t in created :: []
  }

  function WithOpened(s: Slots, b: Block, now: int, created: seq<int>): Slots {
    s.(offers := s.offers.(slots := WithSlots(s.offers.slots, created)),
       bids := s.bids.(slots := WithSlots(s.bids.slots, created)),
       info := WithParams(s.info, b, now, created))
  }

  ghost function SlotsOpened(s: Slots, b: Block, inSimulation: int -> bool, now: int): Slots
    requires WellFormed(b)
  {
    WithOpened(s, b, now, Opened(b, s.bids.slots.Keys, inSimulation, now))
  }

  // The n-th slot from a given one on.
  function Nth(b: Block, t: int, n: nat): int
    decreases n
  {
    if n == 0 then t else Nth(b, b.next(t), n - 1)
  }

  // The loop opens precisely the unknown slots of the block's grid, up to the last one, that
  // lie in the simulation and have not closed yet, each once.
  lemma {:induction false} OpenedFromIff(b: Block, known: set<int>, inSimulation: int -> bool, now: int, t: int, s: int)
    requires WellFormed(b)
    ensures s in OpenedFrom(b, known, inSimulation, now, t) <==>
            (exists n: nat :: Nth(b, t, n) == s) && s <= b.end(now) && Opens(b, known, inSimulation, now, s)
    ensures s in OpenedFrom(b, known, inSimulation, now, t) ==> t <= s
    ensures multiset(OpenedFrom(b, known, inSimulation, now, t))[s] <= 1
    decreases b.end(now) - t
  {
    NthStep(b, t, s);
    if t <= b.end(now) {
      OpenedFromIff(b, known, inSimulation, now, b.next(t), s);
    }
  }

  // A slot of the grid is the first one or one of the grid behind it, and none is before the first.
  lemma NthStep(b: Block, t: int, s: int)
    requires WellFormed(b)
    ensures (exists n: nat :: Nth(b, t, n) == s) <==> s == t || (exists n: nat :: Nth(b, b.next(t), n) == s)
    ensures (exists n: nat :: Nth(b, t, n) == s) ==> t <= s
  {
    hide WellFormed;
    NthFromNext(b, t, 0);
    if exists n: nat :: Nth(b, t, n) == s {
      var n: nat :| Nth(b, t, n) == s;
      NthGrows(b, t, n);
      if n > 0 {
        NthFromNext(b, t, n - 1);
        assert Nth(b, b.next(t), n - 1) == s;
      }
    }
    if exists n: nat :: Nth(b, b.next(t), n) == s {
      var n: nat :| Nth(b, b.next(t), n) == s;
      NthFromNext(b, t, n);
      assert Nth(b, t, n + 1) == s;
    }
  }

  lemma NthFromNext(b: Block, t: int, n: nat)
    ensures Nth(b, t, 0) == t && Nth(b, t, n + 1) == Nth(b, b.next(t), n)
  {
  }

  lemma {:induction false} NthGrows(b: Block, t: int, n: nat)
    requires WellFormed(b)
    ensures Nth(b, t, n) >= t + n
    decreases n
  {
    if n > 0 {
      NthGrows(b, b.next(t), n - 1);
    }
  }

  lemma OpenedIff(b: Block, known: set<int>, inSimulation: int -> bool, now: int, s: int)
    requires WellFormed(b)
    ensures var created := Opened(b, known, inSimulation, now);
            && (s in created <==> (exists n: nat :: Nth(b, b.start(now), n) == s) && s <= b.end(now)
                                  && s !in known && inSimulation(s) && b.closing(s) > now)
            && (s in created ==> Reachable(b, now, s))
            && multiset(created)[s] <= 1
  {
    OpenedFromIff(b, known, inSimulation, now, b.start(now), s);
  }

  lemma {:induction false} ParamsAfter(info: seq<SlotParams>, b: Block, now: int, created: seq<int>)
    ensures forall t :: HasParams(WithParams(info, b, now, created), t) <==> HasParams(info, t) || t in created
    ensures forall p :: p in WithParams(info, b, now, created) ==>
              p in info || (p.deliveryStart in created && p == ParamsOf(b, now, p.deliveryStart))
    decreases |created|
  {
    if created != [] {
      var info1 := if HasParams(info, created[0]) then info else info + [ParamsOf(b, now, created[0])];
      ParamsAfter(info1, b, now, created[1..]);
      if !HasParams(info, created[0]) {
        assert info1[|info|].deliveryStart == created[0];
        forall t ensures HasParams(info1, t) <==> HasParams(info, t) || t == created[0] {
          if HasParams(info, t) {
            var i :| 0 <= i < |info| && info[i].deliveryStart == t;
            assert info1[i].deliveryStart == t;
          }
        }
      }
      forall t ensures t in created <==> t == created[0] || t in created[1..] {
      }
    }
  }

  // Opening known or unknown slots leaves no order behind; that no slot list is overwritten is
  // because both sides know the same slots.
  lemma OpeningKeepsCoherence(s: Slots, b: Block, inSimulation: int -> bool, now: int)
    requires SlotsCoherent(s) && WellFormed(b)
    ensures SlotsCoherent(SlotsOpened(s, b, inSimulation, now))
  {
    var created := Opened(b, s.bids.slots.Keys, inSimulation, now);
    forall t | t in created ensures t !in s.bids.slots && t !in s.offers.slots {
      OpenedIff(b, s.bids.slots.Keys, inSimulation, now, t);
    }
    NewSlotsKeepCoherence(s.offers, created);
    NewSlotsKeepCoherence(s.bids, created);
  }

  lemma NewSlotsKeepCoherence(x: Indexed, created: seq<int>)
    requires Coherent(x) && forall t :: t in created ==> t !in x.slots
    ensures Coherent(x.(slots := WithSlots(x.slots, created)))
    ensures WithSlots(x.slots, created).Keys == x.slots.Keys + set t | t in created
  {
    var y := x.(slots := WithSlots(x.slots, created));
    forall t | t in y.slots ensures y.slots[t] == Only(y.data, iset{t}) {
      if t in created {
        OnlyNothing(x.data, iset{t});
      }
    }
  }

  // ----- expiring slots -----

  lemma {:induction false} TradesInWhich(trades: seq<Trade>, keep: iset<int>)
    ensures forall t :: t in TradesIn(trades, keep) <==> t in trades && t.timeSlot in keep
  {
    if trades != [] {
      TradesInWhich(trades[1..], keep);
      assert trades == [trades[0]] + trades[1..];
    }
  }

  lemma {:induction false} TradesInSame(trades: seq<Trade>, keep: iset<int>, other: iset<int>)
    requires forall t :: t in trades ==> (t.timeSlot in keep <==> t.timeSlot in other)
    ensures TradesIn(trades, keep) == TradesIn(trades, other)
  {
    if trades != [] {
      assert trades[0] in trades;
      TradesInSame(trades[1..], keep, other);
    }
  }

  lemma {:induction false} TradesInAppend(trades: seq<Trade>, more: seq<Trade>, keep: iset<int>)
    ensures TradesIn(trades + more, keep) == TradesIn(trades, keep) + TradesIn(more, keep)
  {
    if trades == [] {
      assert trades + more == more;
    } else {
      assert (trades + more)[1..] == trades[1..] + more && (trades + more)[0] == trades[0];
      TradesInAppend(trades[1..], more, keep);
      Regroup(if trades[0].timeSlot in keep then [trades[0]] else [], TradesIn(trades[1..], keep),
              TradesIn(more, keep));
    }
  }

  lemma {:induction false} TradesInTwice(trades: seq<Trade>, first: iset<int>, second: iset<int>)
    ensures TradesIn(TradesIn(trades, first), second) == TradesIn(trades, first * second)
  {
    if trades != [] {
      TradesInTwice(trades[1..], first, second);
      var head := if trades[0].timeSlot in first then [trades[0]] else [];
      TradesInAppend(head, TradesIn(trades[1..], first), second);
      assert [trades[0]][1..] == [];
    }
  }

  lemma TradesHaveSlots(s: Slots)
    requires SlotsCoherent(s)
    ensures forall t :: t in s.trades ==> t.timeSlot in s.bids.slots
  {
  }

  lemma NoTradesYet(trades: seq<Trade>)
    ensures forall s: int :: TradesIn(trades[..0], iset{s}) == []
  {
  }

  lemma NextTrade(trades: seq<Trade>, i: nat, s: int)
    requires i < |trades|
    ensures TradesIn(trades[..i + 1], iset{s}) ==
            if trades[i].timeSlot == s then TradesIn(trades[..i], iset{s}) + [trades[i]]
            else TradesIn(trades[..i], iset{s})
  {
    TradesInAppend(trades[..i], [trades[i]], iset{s});
    assert trades[..i + 1] == trades[..i] + [trades[i]] && [trades[i]][1..] == [];
    assert TradesIn(trades[..i], iset{s}) + [] == TradesIn(trades[..i], iset{s});
  }

  lemma KeepingSlotsKeepsCoherence(s: Slots, keep: iset<int>)
    requires SlotsCoherent(s)
    ensures SlotsCoherent(SlotsKept(s, keep))
  {
    KeepingKeepsCoherence(s.offers, keep);
    KeepingKeepsCoherence(s.bids, keep);
    TradesInWhich(s.trades, keep);
  }

  lemma {:induction false} DeletionsOfMore(ofOffers: bool, orders: Book, o: Order)
    ensures Deletions(ofOffers, orders + [o]) ==
            Deletions(ofOffers, orders) + [if ofOffers then OfferDeleted(o) else BidDeleted(o)]
  {
    if orders == [] {
      assert orders + [o] == [o] && [o][1..] == [];
    } else {
      assert (orders + [o])[1..] == orders[1..] + [o];
      DeletionsOfMore(ofOffers, orders[1..], o);
    }
  }

  // Taking the next order out of a book whose first part has been dealt with.
  lemma TakingNext(done: Book, o: Order, rest: Book)
    requires Distinct(done + [o] + rest)
    ensures Find(done + [o] + rest, o.id) == Some(o)
    ensures Pop(done + [o] + rest, o.id) == done + rest
  {
    var all := done + [o] + rest;
    assert all[|done|] == o;
    InFind(all, o);
    PopAppend(done + [o], rest, o.id);
    PopAppend(done, [o], o.id);
    AbsentBeside(done, o, rest);
    PopAbsent(done, o.id);
    PopAbsent(rest, o.id);
    assert [o][1..] == [];
  }

  lemma {:induction false} AbsentBeside(done: Book, o: Order, rest: Book)
    requires Distinct(done + [o] + rest)
    ensures Find(done, o.id).None? && Find(rest, o.id).None?
  {
    var all := done + [o] + rest;
    if done == [] {
      assert all == [o] + rest && all[1..] == rest;
    } else {
      assert all[1..] == done[1..] + [o] + rest;
      AbsentBeside(done[1..], o, rest);
      FindIn(all[1..], done[0].id);
      assert all[1..][|done[1..]|] == o;
    }
  }

  class FutureMarkets {
    const block: Block
    const offers: FutureOrders
    const bids: FutureOrders
    var trades: seq<Trade>
    var openMarketSlotInfo: seq<SlotParams>
    var events: seq<Event>

    function State(): Slots
      reads this, offers, bids
    {
      Slots(offers.State(), bids.State(), trades, openMarketSlotInfo, events)
    }

    ghost predicate Valid()
      reads this, offers, bids
    {
      offers != bids && WellFormed(block) && SlotsCoherent(State())
    }

    constructor (block: Block)
      requires WellFormed(block)
      ensures Valid() && fresh(offers) && fresh(bids) && this.block == block
      ensures State() == Slots(Indexed([], map[]), Indexed([], map[]), [], [], [])
    {
      this.block := block;
      offers := new FutureOrders();
      bids := new FutureOrders();
      trades, openMarketSlotInfo, events := [], [], [];
    }

    function Side(ofOffers: bool): FutureOrders {
      if ofOffers then offers else bids
    }

    // delete_offer and delete_bid.
    method Delete(ofOffers: bool, id: nat) returns (r: Result<Order>)
      requires offers != bids && Coherent(Side(ofOffers).State())
      modifies this`events, Side(ofOffers)
      ensures Removable(old(Side(ofOffers).State()), id)
      ensures Side(ofOffers).State() == Taken(old(Side(ofOffers).State()), id)
      ensures Coherent(Side(ofOffers).State())
      ensures Side(ofOffers).slotOrderMapping.Keys == old(Side(ofOffers).slotOrderMapping.Keys)
      ensures match old(Find(Side(ofOffers).data, id))
              case None => r.Err? && events == old(events)
              case Some(o) => r == Ok(o) && events == old(events) + Deletions(ofOffers, [o])
    {
      TakingKeepsCoherence(Side(ofOffers).State(), id);
      var found := Side(ofOffers).Pop(id);
      if found.None? {
        return Err(if ofOffers then OfferNotFound else BidNotFound);
      }
      events := events + [if ofOffers then OfferDeleted(found.value) else BidDeleted(found.value)];
      assert [found.value][1..] == [];
      return Ok(found.value);
    }

    // Cancels every order up to the given slot, then forgets the slots themselves.
    method ExpireOrders(ofOffers: bool, currentMarketTimeSlot: int)
      requires offers != bids && Coherent(Side(ofOffers).State())
      modifies this`events, Side(ofOffers)
      ensures Side(ofOffers).State() == Kept(old(Side(ofOffers).State()), Later(currentMarketTimeSlot))
      ensures events == old(events) +
              Deletions(ofOffers, Only(old(Side(ofOffers).data), Outside(Later(currentMarketTimeSlot))))
    {
      ghost var x0 := Side(ofOffers).State();
      CancelOldOrders(ofOffers, currentMarketTimeSlot);
      OnlyLater(x0, Side(ofOffers).State(), Later(currentMarketTimeSlot));
      var orders := Side(ofOffers);
      orders.slotOrderMapping :=
        map s | s in orders.slotOrderMapping && s > currentMarketTimeSlot :: orders.slotOrderMapping[s];
    }

    // The first loop of the expiry, over a copy of the orders. No removal raises on the way.
    method CancelOldOrders(ofOffers: bool, currentMarketTimeSlot: int)
      requires offers != bids && Coherent(Side(ofOffers).State())
      modifies this`events, Side(ofOffers)
      ensures Coherent(Side(ofOffers).State())
      ensures Side(ofOffers).data == Only(old(Side(ofOffers).data), Later(currentMarketTimeSlot))
      ensures Side(ofOffers).slotOrderMapping.Keys == old(Side(ofOffers).slotOrderMapping.Keys)
      ensures events == old(events) +
              Deletions(ofOffers, Only(old(Side(ofOffers).data), Outside(Later(currentMarketTimeSlot))))
    {
      hide Coherent, Find, Pop, Taken, Removable, Only, Deletions, Outside, Later, Remaining, Told;
      var orders := Side(ofOffers);
      var snapshot := orders.data;
      ghost var told := events;
      NothingYet(ofOffers, snapshot, currentMarketTimeSlot, told);
      for i := 0 to |snapshot|
        invariant Coherent(orders.State()) && orders.slotOrderMapping.Keys == old(orders.slotOrderMapping.Keys)
        invariant orders.data == Remaining(snapshot, i, currentMarketTimeSlot)
        invariant events == Told(told, ofOffers, snapshot, i, currentMarketTimeSlot)
      {
        NextOrder(ofOffers, snapshot, i, currentMarketTimeSlot, told);
        if snapshot[i].timeSlot <= currentMarketTimeSlot {
          CancelNext(ofOffers, snapshot[i], Only(snapshot[..i], Later(currentMarketTimeSlot)), snapshot[i + 1..]);
        }
      }
      AllOrders(ofOffers, snapshot, currentMarketTimeSlot, told);
    }

    method CancelNext(ofOffers: bool, order: Order, ghost done: Book, ghost rest: Book)
      requires offers != bids && Coherent(Side(ofOffers).State())
      requires Side(ofOffers).data == done + [order] + rest
      modifies this`events, Side(ofOffers)
      ensures Coherent(Side(ofOffers).State()) && Side(ofOffers).data == done + rest
      ensures Side(ofOffers).slotOrderMapping.Keys == old(Side(ofOffers).slotOrderMapping.Keys)
      ensures events == old(events) + Deletions(ofOffers, [order])
    {
      hide Coherent, Find, Pop, Taken, Removable, Deletions;
      CoherentIsDistinct(Side(ofOffers).State());
      TakingNext(done, order, rest);
      TakingKeepsCoherence(Side(ofOffers).State(), order.id);
      var r := Delete(ofOffers, order.id);
    }

    method RemoveOldOrdersFromList(list: seq<Trade>, currentMarketTimeSlot: int) returns (r: seq<Trade>)
      ensures r == TradesIn(list, Later(currentMarketTimeSlot))
    {
      r := [];
      for i := 0 to |list|
        invariant r == TradesIn(list[..i], Later(currentMarketTimeSlot))
      {
        assert list[..i + 1] == list[..i] + [list[i]] && [list[i]][1..] == [];
        TradesInAppend(list[..i], [list[i]], Later(currentMarketTimeSlot));
        if list[i].timeSlot > currentMarketTimeSlot {
          r := r + [list[i]];
        }
      }
      assert list[..|list|] == list;
    }

    method DeleteOrdersInOldFutureMarkets(lastSlotToBeDeleted: int)
      requires Valid()
      modifies this`trades, this`events, offers, bids
      ensures Valid() && State() == SlotsKept(old(State()), Later(lastSlotToBeDeleted))
    {
      KeepingSlotsKeepsCoherence(State(), Later(lastSlotToBeDeleted));
      ExpireOrders(true, lastSlotToBeDeleted);
      ExpireOrders(false, lastSlotToBeDeleted);
      trades := RemoveOldOrdersFromList(trades, lastSlotToBeDeleted);
    }

    // The assertions of the parameters' constructor hold for every slot the loop below opens.
    method SetOpenMarketSlotParameters(currentMarketSlot: int, createdMarketSlots: seq<int>)
      requires WellFormed(block) && forall t :: t in createdMarketSlots ==> Reachable(block, currentMarketSlot, t)
      modifies this`openMarketSlotInfo
      ensures openMarketSlotInfo == WithParams(old(openMarketSlotInfo), block, currentMarketSlot, createdMarketSlots)
    {
      ghost var info0 := openMarketSlotInfo;
      assert createdMarketSlots[0..] == createdMarketSlots;
      for i := 0 to |createdMarketSlots|
        invariant WithParams(info0, block, currentMarketSlot, createdMarketSlots) ==
                  WithParams(openMarketSlotInfo, block, currentMarketSlot, createdMarketSlots[i..])
      {
        var slot := createdMarketSlots[i];
        assert createdMarketSlots[i..][0] == slot && createdMarketSlots[i..][1..] == createdMarketSlots[i + 1..];
        if !HasParams(openMarketSlotInfo, slot) {
          var params := ParamsOf(block, currentMarketSlot, slot);
          assert Sound(params);
          openMarketSlotInfo := openMarketSlotInfo + [params];
        }
      }
    }

    method CreateFutureMarketSlots(currentMarketTimeSlot: int, inSimulation: int -> bool) returns (created: seq<int>)
      requires Valid()
      modifies this`openMarketSlotInfo, offers, bids
      ensures created == Opened(block, old(bids.slotOrderMapping.Keys), inSimulation, currentMarketTimeSlot)
      ensures Valid() && State() == SlotsOpened(old(State()), block, inSimulation, currentMarketTimeSlot)
    {
      hide Coherent, WellFormed, WithSlots, WithParams, Opened;
      OpeningKeepsCoherence(State(), block, inSimulation, currentMarketTimeSlot);
      ghost var known := bids.slotOrderMapping.Keys;
      created := CreateSlots(currentMarketTimeSlot, inSimulation);
      forall t | t in created ensures Reachable(block, currentMarketTimeSlot, t) {
        OpenedIff(block, known, inSimulation, currentMarketTimeSlot, t);
      }
      SetOpenMarketSlotParameters(currentMarketTimeSlot, created);
    }

    // _create_future_market_slots.
    method CreateSlots(currentMarketTimeSlot: int, inSimulation: int -> bool) returns (created: seq<int>)
      requires offers != bids && WellFormed(block)
      modifies offers`slotOrderMapping, bids`slotOrderMapping
      ensures created == Opened(block, old(bids.slotOrderMapping.Keys), inSimulation, currentMarketTimeSlot)
      ensures offers.slotOrderMapping == WithSlots(old(offers.slotOrderMapping), created)
      ensures bids.slotOrderMapping == WithSlots(old(bids.slotOrderMapping), created)
    {
      hide WellFormed, WithSlots, OpenedFrom;
      ghost var known := bids.slotOrderMapping.Keys;
      var slot := block.start(currentMarketTimeSlot);
      var endTime := block.end(currentMarketTimeSlot);
      created := [];
      NoSlots(offers.slotOrderMapping);
      NoSlots(bids.slotOrderMapping);
      while slot <= endTime
        invariant Opened(block, known, inSimulation, currentMarketTimeSlot) ==
                  created + OpenedFrom(block, known, inSimulation, currentMarketTimeSlot, slot)
        invariant forall t :: t in created ==> t < slot
        invariant offers.slotOrderMapping == WithSlots(old(offers.slotOrderMapping), created)
        invariant bids.slotOrderMapping == WithSlots(old(bids.slotOrderMapping), created)
        invariant bids.slotOrderMapping.Keys == known + set t | t in created
        decreases endTime - slot
      {
        ghost var before := created;
        if slot !in bids.slotOrderMapping && inSimulation(slot) && block.closing(slot) > currentMarketTimeSlot {
          OneMoreSlot(old(offers.slotOrderMapping), created, slot);
          OneMoreSlot(old(bids.slotOrderMapping), created, slot);
          bids.slotOrderMapping := bids.slotOrderMapping[slot := []];
          offers.slotOrderMapping := offers.slotOrderMapping[slot := []];
          created := created + [slot];
        }
        NextIsLater(block, slot);
        NextOpened(block, known, inSimulation, currentMarketTimeSlot, slot, before);
        slot := block.next(slot);
      }
      NoneOpened(block, known, inSimulation, currentMarketTimeSlot, slot);
    }

    // Every trade finds its slot in the mapping, so the lookup never raises.
    method SlotTradeMapping() returns (mapping: map<int, seq<Trade>>)
      requires Valid()
      ensures mapping.Keys == bids.slotOrderMapping.Keys
      ensures forall s :: s in mapping ==> mapping[s] == TradesIn(trades, iset{s})
    {
      TradesHaveSlots(State());
      hide SlotsCoherent, Coherent, WellFormed, TradesIn;
      mapping := map s | s in bids.slotOrderMapping :: [];
      NoTradesYet(trades);
      for i := 0 to |trades|
        invariant mapping.Keys == bids.slotOrderMapping.Keys
        invariant forall s :: s in mapping ==> mapping[s] == TradesIn(trades[..i], iset{s})
      {
        ghost var before := mapping;
        var slot := trades[i].timeSlot;
        mapping := mapping[slot := mapping[slot] + [trades[i]]];
        forall s | s in mapping ensures mapping[s] == TradesIn(trades[..i + 1], iset{s}) {
          NextTrade(trades, i, s);
          assert before[s] == TradesIn(trades[..i], iset{s});
        }
      }
      assert trades[..|trades|] == trades;
    }
  }

  // The orders that are left, and what was told, after dealing with the first i orders.
  ghost function Remaining(b: Book, i: nat, t: int): Book
    requires i <= |b|
  {
    Only(b[..i], Later(t)) + b[i..]
  }

  ghost function Told(before: seq<Event>, ofOffers: bool, b: Book, i: nat, t: int): seq<Event>
    requires i <= |b|
  {
    before + Deletions(ofOffers, Only(b[..i], Outside(Later(t))))
  }

  lemma NothingYet(ofOffers: bool, b: Book, t: int, before: seq<Event>)
    ensures Remaining(b, 0, t) == b && Told(before, ofOffers, b, 0, t) == before
  {
  }

  lemma NextOrder(ofOffers: bool, b: Book, i: nat, t: int, before: seq<Event>)
    requires i < |b|
    ensures Remaining(b, i, t) == Only(b[..i], Later(t)) + [b[i]] + b[i + 1..]
    ensures b[i].timeSlot > t ==> Remaining(b, i + 1, t) == Remaining(b, i, t)
    ensures b[i].timeSlot <= t ==> Remaining(b, i + 1, t) == Only(b[..i], Later(t)) + b[i + 1..]
    ensures Told(before, ofOffers, b, i + 1, t) ==
            Told(before, ofOffers, b, i, t) + if b[i].timeSlot <= t then Deletions(ofOffers, [b[i]]) else []
  {
    var past := Outside(Later(t));
    hide Only, Deletions;
    NextOnly(b, i, Later(t));
    NextOnly(b, i, past);
    DeletionsOfNext(ofOffers, Only(b[..i], past), b[i]);
  }

  lemma NextOnly(b: Book, i: nat, keep: iset<int>)
    requires i < |b|
    ensures Only(b[..i + 1], keep) == if b[i].timeSlot in keep then Only(b[..i], keep) + [b[i]] else Only(b[..i], keep)
  {
    assert b[..i + 1] == b[..i] + [b[i]];
    OnlyAppend(b[..i], [b[i]], keep);
  }

  lemma AllOrders(ofOffers: bool, b: Book, t: int, before: seq<Event>)
    ensures Remaining(b, |b|, t) == Only(b, Later(t))
    ensures Told(before, ofOffers, b, |b|, t) == before + Deletions(ofOffers, Only(b, Outside(Later(t))))
  {
    assert b[..|b|] == b;
  }

  lemma DeletionsOfNext(ofOffers: bool, orders: Book, o: Order)
    ensures Deletions(ofOffers, orders + [o]) == Deletions(ofOffers, orders) + Deletions(ofOffers, [o])
  {
    DeletionsOfMore(ofOffers, orders, o);
    assert [o][1..] == [];
  }

  lemma NextOpened(b: Block, known: set<int>, inSimulation: int -> bool, now: int, t: int, created: seq<int>)
    requires WellFormed(b) && t <= b.end(now)
    ensures created + OpenedFrom(b, known, inSimulation, now, t) ==
            (if Opens(b, known, inSimulation, now, t) then created + [t] else created) +
            OpenedFrom(b, known, inSimulation, now, b.next(t))
  {
  }

  lemma NoneOpened(b: Block, known: set<int>, inSimulation: int -> bool, now: int, t: int)
    requires WellFormed(b) && t > b.end(now)
    ensures OpenedFrom(b, known, inSimulation, now, t) == []
  {
  }

  lemma NextIsLater(b: Block, t: int)
    requires WellFormed(b)
    ensures b.next(t) > t
  {
  }

  lemma NoSlots(slots: map<int, Book>)
    ensures WithSlots(slots, []) == slots
  {
  }

  lemma OneMoreSlot(slots: map<int, Book>, created: seq<int>, t: int)
    ensures WithSlots(slots, created + [t]) == WithSlots(slots, created)[t := []]
  {
  }

  lemma CoherentIsDistinct(x: Indexed)
    requires Coherent(x)
    ensures Distinct(x.data)
  {
  }

  lemma OnlyLater(x: Indexed, y: Indexed, later: iset<int>)
    requires Coherent(x) && Coherent(y) && y.data == Only(x.data, later) && y.slots.Keys == x.slots.Keys
    ensures forall s :: s in x.slots && s in later ==> y.slots[s] == x.slots[s]
  {
    forall s | s in x.slots && s in later ensures y.slots[s] == x.slots[s] {
      OnlyTwice(x.data, later, iset{s});
      assert later * iset{s} == iset{s};
    }
  }
}
