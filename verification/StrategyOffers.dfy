/** A strategy's own records of the offers it has in one market: what it posted, what was sold and
    what was split, kept up to date by events only. An offer object is identified by its id. */
module StrategyOffers {
  import opened Numeric
  import opened Books
  import opened MarketState

  datatype Cache = Cache(posted: Book, sold: Book, split: map<nat, Order>)

  predicate IsSold(c: Cache, id: nat) {
    Find(c.sold, id).Some?
  }

  predicate IsOpen(c: Cache, id: nat) {
    Find(c.posted, id).Some? && !IsSold(c, id)
  }

  predicate IsOpenIn(c: Cache, o: Order, timeSlot: Option<int>) {
    !IsSold(c, o.id) && InSlot(o, timeSlot)
  }

  function OpenOrders(c: Cache, posted: Book, timeSlot: Option<int>): Book {
    if posted == [] then []
    else (if IsOpenIn(c, posted[0], timeSlot) then [posted[0]] else []) + OpenOrders(c, posted[1..], timeSlot)
  }

  lemma NextOpenOrder(c: Cache, posted: Book, timeSlot: Option<int>, i: nat, open: Book)
    requires i < |posted|
    ensures open + OpenOrders(c, posted[i..], timeSlot) ==
            (if IsOpenIn(c, posted[i], timeSlot) then open + [posted[i]] else open) +
            OpenOrders(c, posted[i + 1..], timeSlot)
  {
    var rest := OpenOrders(c, posted[i + 1..], timeSlot);
    assert posted[i..][0] == posted[i] && posted[i..][1..] == posted[i + 1..];
    Regroup(open, [posted[i]], rest);
    assert [] + rest == rest;
  }

  lemma NoOpenOrders(c: Cache, posted: Book, timeSlot: Option<int>)
    requires posted == []
    ensures OpenOrders(c, posted, timeSlot) == []
  {
  }

  // An offer that was split already is not posted again under the same id.
  function Posted(c: Cache, o: Order): Cache {
    if o.id in c.split then c else c.(posted := Put(c.posted, o))
  }

  // A sold offer is put back, at the end.
  function Removed(c: Cache, id: nat): Cache {
    if IsSold(c, id) && Find(c.posted, id).Some?
    then c.(posted := Put(Pop(c.posted, id), Find(c.posted, id).value))
    else c.(posted := Pop(c.posted, id))
  }

  // Removing a sold offer leaves the posted ones as they were; removing another one takes it out.
  lemma RemovedIs(c: Cache, id: nat)
    requires Distinct(c.posted)
    ensures forall k :: Find(Removed(c, id).posted, k) ==
                        if k == id && Find(c.sold, id).None? then None else Find(c.posted, k)
    ensures Removed(c, id).sold == c.sold && Removed(c, id).split == c.split
  {
    FindIn(c.posted, id);
    AfterPop(c.posted, id);
    if IsSold(c, id) && Find(c.posted, id).Some? {
      PutFresh(Pop(c.posted, id), Find(c.posted, id).value);
      AfterAppend(Pop(c.posted, id), Find(c.posted, id).value);
    }
  }

  function Replaced(c: Cache, oldOffer: Order, newOffer: Order): Cache {
    if IsSold(c, oldOffer.id) then Removed(c, oldOffer.id) else Posted(Removed(c, oldOffer.id), newOffer)
  }

  function AfterSplit(c: Cache, owner: string, original: Order, accepted: Order, residual: Order): Cache {
    if original.trader.name != owner then c
    else
      var c1 := Posted(c.(split := c.split[original.id := accepted]), residual);
      if Find(c1.posted, original.id).Some? then Replaced(c1, original, accepted) else c1
  }

  function AfterTrade(c: Cache, owner: string, t: Trade): Cache {
    if t.seller.name != owner || t.offer.None? then c
    else
      var o := t.offer.value;
      var c1 := if o.id in c.split && Find(c.posted, o.id).Some? then Removed(c, c.split[o.id].id) else c;
      c1.(sold := c1.sold + [o])
  }

  function Handled(c: Cache, owner: string, e: Event): Cache {
    match e
    case OfferSplit(original, accepted, residual) => AfterSplit(c, owner, original, accepted, residual)
    case OfferTraded(t) => AfterTrade(c, owner, t)
    case _ => c
  }

  function HandledAll(c: Cache, owner: string, events: seq<Event>): Cache
    decreases |events|
  {
    if events == [] then c else HandledAll(Handled(c, owner, events[0]), owner, events[1..])
  }

  // The records themselves: dictionaries changed in place by the strategy and its event handlers.
  class Offers {
    const owner: string
    var posted: Book
    var sold: Book
    var split: map<nat, Order>

    function State(): Cache
      reads this
    {
      Cache(posted, sold, split)
    }

    ghost predicate WellFormed()
      reads this
    {
      && Distinct(posted) && (forall id :: id in split ==> split[id].id == id)
    }

    constructor (owner: string)
      ensures this.owner == owner && State() == Cache([], [], map[]) && WellFormed()
    {
      this.owner := owner;
      posted, sold, split := [], [], map[];
    }

    method OpenInMarket(timeSlot: Option<int>) returns (open: Book)
      ensures open == OpenOrders(State(), posted, timeSlot)
    {
      hide OpenOrders;
      open := [];
      assert posted[0..] == posted;
      assert open + OpenOrders(State(), posted, timeSlot) == OpenOrders(State(), posted, timeSlot);
      for i := 0 to |posted|
        invariant open + OpenOrders(State(), posted[i..], timeSlot) == OpenOrders(State(), posted, timeSlot)
      {
        NextOpenOrder(State(), posted, timeSlot, i, open);
        if IsOpenIn(State(), posted[i], timeSlot) {
          open := open + [posted[i]];
        }
      }
      NoOpenOrders(State(), posted[|posted|..], timeSlot);
      assert open + [] == open;
    }

    method Post(offer: Order)
      modifies this`posted
      ensures State() == Posted(old(State()), offer)
    {
      if offer.id !in split {
        posted := Put(posted, offer);
      }
    }

    method Remove(id: nat) returns (removed: bool)
      requires Find(posted, id).Some?
      modifies this`posted
      ensures State() == Removed(old(State()), id) && removed == !IsSold(old(State()), id)
    {
      var offer := Find(posted, id).value;
      posted := Pop(posted, id);
      if Find(sold, id).Some? {
        posted := Put(posted, offer);
        return false;
      }
      return true;
    }

    method Replace(oldOffer: Order, newOffer: Order)
      requires Find(posted, oldOffer.id).Some?
      modifies this`posted
      ensures State() == Replaced(old(State()), oldOffer, newOffer)
    {
      var removed := Remove(oldOffer.id);
      if removed {
        Post(newOffer);
      }
    }

    method OnOfferSplit(original: Order, accepted: Order, residual: Order)
      modifies this
      ensures State() == AfterSplit(old(State()), owner, original, accepted, residual)
    {
      if original.trader.name == owner {
        split := split[original.id := accepted];
        Post(residual);
        if Find(posted, original.id).Some? {
          Replace(original, accepted);
        }
      }
    }

    method OnTrade(trade: Trade)
      requires WellFormed()
      modifies this
      ensures State() == AfterTrade(old(State()), owner, trade)
    {
      if trade.seller.name != owner || trade.offer.None? {
        return;
      }
      var offer := trade.offer.value;
      if offer.id in split && Find(posted, offer.id).Some? {
        var _ := Remove(split[offer.id].id);
      }
      sold := sold + [offer];
    }
  }
}
