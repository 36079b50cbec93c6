/** What re-pricing its offers leaves a strategy with: the same energies in the same slots, at the rate it
    asked for. */
module OfferRates {
  import opened Numeric
  import opened Books
  import opened Fees
  import opened MarketState
  import opened StrategyOffers
  import opened OfferCoherence
  import opened OwnerMoves
  import opened Postings

  // An unsold offer of the slot whose price is more than TOL off what the rate comes to.
  predicate IsOff(c: Cache, o: Order, rate: real, timeSlot: Option<int>) {
    && (timeSlot.None? || o.timeSlot == timeSlot.value)
    && Abs(o.price - rate * o.energy) > TOL
    && Find(c.sold, o.id).None?
  }

  function OffRate(c: Cache, b: Book, rate: real, timeSlot: Option<int>): Book {
    if b == [] then []
    else (if IsOff(c, b[0], rate, timeSlot) then [b[0]] else []) + OffRate(c, b[1..], rate, timeSlot)
  }

  function AtRate(c: Cache, b: Book, rate: real, timeSlot: Option<int>): Book {
    if b == [] then []
    else (if IsOff(c, b[0], rate, timeSlot) then [] else [b[0]]) + AtRate(c, b[1..], rate, timeSlot)
  }

  // The same energy for the same slot and from the same device, which asks for the rate; the market adds
  // its fee.
  ghost predicate Again(fee: FeeClass, me: Trader, o: Order, new_: Order, rate: real) {
    && new_.energy == o.energy && new_.timeSlot == o.timeSlot
    && new_.trader == me.(originUuid := o.trader.originUuid)
    && new_.originalPrice == rate * o.energy
    && new_.price == rate * o.energy + if fee.ConstantFee? then fee.rate * o.energy else fee.rate * (rate * o.energy)
  }

  ghost predicate AllAgain(fee: FeeClass, me: Trader, old_: Book, new_: Book, rate: real) {
    |new_| == |old_| && forall i :: 0 <= i < |old_| ==> Again(fee, me, old_[i], new_[i], rate)
  }

  // Everything that is not an offer of the strategy's is as it was.
  ghost predicate OthersUntouched(owner: string, m: Market, m': Market) {
    && m'.bids == m.bids && m'.trades == m.trades && m'.nextId >= m.nextId
    && forall k :: Find(m.offers, k).Some? && Find(m.offers, k).value.trader.name != owner ==>
         Find(m'.offers, k) == Find(m.offers, k)
  }

  // An offer that needs it is replaced, and keeps its place among nothing but the new ones.
  lemma OneAgain(cfg: Config, m: Market, c: Cache, pending: map<nat, Order>, me: Trader, before: Book, o: Order,
                 after: Book, rate: real)
    requires Coherent(me.name, m, c, pending) && !m.readonly && RateIsAccepted(cfg.fee, rate)
    requires c.posted == before + [o] + after
    requires Abs(o.price - rate * o.energy) > TOL && Find(c.sold, o.id).None?
    ensures var (m', c') := Updated(cfg, m, c, me, o, rate);
            && OthersUntouched(me.name, m, m')
            && c'.sold == c.sold && c'.split == c.split
            && exists new_ :: Again(cfg.fee, me, o, new_, rate) && c'.posted == before + after + [new_]
  {
    hide Coherent, Valid, OfferPriceWithFee, RateIsAccepted, Updated;
    PostedIsOpen(me.name, m, c, pending, before, o, after);
    UpdateThatReposts(cfg, m, c, me, o, rate);
    var m1 := m.(offers := Pop(m.offers, o.id), events := m.events + [OfferDeleted(o)]);
    var r := Reposted(cfg, m1, me, o, PriceAt(o, rate)).1;
    ReplacedByNew(m.nextId, c, before, o, after, r.value);
    RepostedAgain(cfg, m, me, o, rate);
    UpdateLeavesOthers(cfg, m, c, me, o, rate);
  }

  lemma PostedIsOpen(owner: string, m: Market, c: Cache, pending: map<nat, Order>, before: Book, o: Order, after: Book)
    requires Coherent(owner, m, c, pending) && c.posted == before + [o] + after && Find(c.sold, o.id).None?
    ensures Valid(m) && Distinct(c.posted) && Find(c.posted, o.id) == Some(o) && Find(m.offers, o.id) == Some(o)
    ensures o.trader.name == owner && m.nextId !in c.split && Find(c.posted, m.nextId).None? && o.id < m.nextId
  {
    assert o in c.posted;
    InFind(c.posted, o);
    assert IsOpen(c, o.id);
  }

  lemma ReplacedByNew(nextId: nat, c: Cache, before: Book, o: Order, after: Book, new_: Order)
    requires Distinct(c.posted) && c.posted == before + [o] + after && Find(c.sold, o.id).None?
    requires new_.id == nextId && nextId !in c.split && Find(c.posted, nextId).None?
    ensures var c' := Replaced(c, o, new_);
            c'.posted == before + after + [new_] && c'.sold == c.sold && c'.split == c.split
  {
    PopMiddle(before, o, after);
    AfterPop(c.posted, o.id);
    PutFresh(before + after, new_);
  }

  lemma RepostedAgain(cfg: Config, m: Market, me: Trader, o: Order, rate: real)
    requires Valid(m) && Find(m.offers, o.id) == Some(o)
    requires var m1 := m.(offers := Pop(m.offers, o.id), events := m.events + [OfferDeleted(o)]);
             Reposted(cfg, m1, me, o, PriceAt(o, rate)).1.Ok?
    ensures var m1 := m.(offers := Pop(m.offers, o.id), events := m.events + [OfferDeleted(o)]);
            Again(cfg.fee, me, o, Reposted(cfg, m1, me, o, PriceAt(o, rate)).1.value, rate)
  {
    hide PostOffer;
    var m1 := m.(offers := Pop(m.offers, o.id), events := m.events + [OfferDeleted(o)]);
    ValidAfterDeleting(m, o.id);
    ValidWithoutOffer(m, o.id, m1);
    PostedOffer(cfg, m1, PriceAt(o, rate), o.energy, me.(originUuid := o.trader.originUuid), None,
                Some(PriceAt(o, rate)), true, true, o.timeSlot);
  }

  lemma ValidWithoutOffer(m: Market, id: nat, m1: Market)
    requires Valid(m) && m1.offers == Pop(m.offers, id) && m1.bids == m.bids && m1.nextId == m.nextId
    ensures Valid(m1)
  {
    AfterPop(m.offers, id);
  }

  lemma UpdateLeavesOthers(cfg: Config, m: Market, c: Cache, me: Trader, o: Order, rate: real)
    requires Valid(m) && Find(m.offers, o.id) == Some(o) && o.trader.name == me.name
    ensures OthersUntouched(me.name, m, Updated(cfg, m, c, me, o, rate).0)
  {
    hide PostOffer, DeleteOffer;
    Deleted(m, o.id);
    ValidAfterDeleting(m, o.id);
    var m1 := DeleteOffer(m, o.id).0;
    PostedOffer(cfg, m1, PriceAt(o, rate), o.energy, me.(originUuid := o.trader.originUuid), None,
                Some(PriceAt(o, rate)), true, true, o.timeSlot);
    DeletionKeepsRest(m, o.id);
    IdsAreOld(m);
  }

  lemma DeletionKeepsRest(m: Market, id: nat)
    ensures var m1 := DeleteOffer(m, id).0; m1.trades == m.trades && m1.nextId == m.nextId
  {
  }

  lemma IdsAreOld(m: Market)
    requires Valid(m)
    ensures forall k: nat :: Find(m.offers, k).Some? ==> k < m.nextId
  {
    forall k: nat | Find(m.offers, k).Some? ensures k < m.nextId {
      FindIn(m.offers, k);
    }
  }

  // What the loop leads to: the offers it has dealt with, those it has left, and those it has posted.
  ghost predicate RepricedTo(fee: FeeClass, me: Trader, m: Market, c: Cache, before: Book, orders: Book, after: Book,
                             rate: real, timeSlot: Option<int>, m': Market, c': Cache)
  {
    && OthersUntouched(me.name, m, m') && c'.sold == c.sold && c'.split == c.split
    && exists new_ :: AllAgain(fee, me, OffRate(c, orders, rate, timeSlot), new_, rate) &&
                      c'.posted == before + AtRate(c, orders, rate, timeSlot) + after + new_
  }

  lemma NothingRepriced(fee: FeeClass, me: Trader, m: Market, c: Cache, before: Book, after: Book, rate: real,
                        timeSlot: Option<int>)
    requires c.posted == before + [] + after
    ensures RepricedTo(fee, me, m, c, before, [], after, rate, timeSlot, m, c)
  {
    assert AllAgain(fee, me, OffRate(c, [], rate, timeSlot), [], rate);
    assert c.posted == before + AtRate(c, [], rate, timeSlot) + after + [];
  }

  lemma FirstIsAtRate(c: Cache, o: Order, rest: Book, rate: real, timeSlot: Option<int>)
    requires !IsOff(c, o, rate, timeSlot)
    ensures AtRate(c, [o] + rest, rate, timeSlot) == [o] + AtRate(c, rest, rate, timeSlot)
    ensures OffRate(c, [o] + rest, rate, timeSlot) == OffRate(c, rest, rate, timeSlot)
  {
    hide IsOff;
    assert ([o] + rest)[1..] == rest;
    assert [] + OffRate(c, rest, rate, timeSlot) == OffRate(c, rest, rate, timeSlot);
  }

  lemma FirstIsOff(c: Cache, o: Order, rest: Book, rate: real, timeSlot: Option<int>)
    requires IsOff(c, o, rate, timeSlot)
    ensures AtRate(c, [o] + rest, rate, timeSlot) == AtRate(c, rest, rate, timeSlot)
    ensures OffRate(c, [o] + rest, rate, timeSlot) == [o] + OffRate(c, rest, rate, timeSlot)
  {
    hide IsOff;
    assert ([o] + rest)[1..] == rest;
    assert [] + AtRate(c, rest, rate, timeSlot) == AtRate(c, rest, rate, timeSlot);
  }

  lemma KeptOne(fee: FeeClass, me: Trader, m: Market, c: Cache, before: Book, o: Order, rest: Book, after: Book,
                rate: real, timeSlot: Option<int>, m': Market, c': Cache)
    requires !IsOff(c, o, rate, timeSlot)
    requires RepricedTo(fee, me, m, c, before + [o], rest, after, rate, timeSlot, m', c')
    ensures RepricedTo(fee, me, m, c, before, [o] + rest, after, rate, timeSlot, m', c')
  {
    hide AtRate, OffRate, AllAgain, OthersUntouched, IsOff;
    var kept, off := AtRate(c, rest, rate, timeSlot), OffRate(c, rest, rate, timeSlot);
    FirstIsAtRate(c, o, rest, rate, timeSlot);
    var new_ :| AllAgain(fee, me, off, new_, rate) && c'.posted == before + [o] + kept + after + new_;
    assert c'.posted == before + ([o] + kept) + after + new_;
  }

  lemma {:induction false} SameSoldSameOff(c: Cache, c': Cache, b: Book, rate: real, timeSlot: Option<int>)
    requires c'.sold == c.sold
    ensures OffRate(c', b, rate, timeSlot) == OffRate(c, b, rate, timeSlot)
    ensures AtRate(c', b, rate, timeSlot) == AtRate(c, b, rate, timeSlot)
  {
    if b != [] {
      SameSoldSameOff(c, c', b[1..], rate, timeSlot);
    }
  }

  lemma PostedOneMore(fee: FeeClass, me: Trader, m: Market, m1: Market, c: Cache, c1: Cache, before: Book, o: Order,
                      rest: Book, after: Book, new_: Order, rate: real, timeSlot: Option<int>, m': Market, c': Cache)
    requires IsOff(c, o, rate, timeSlot) && Again(fee, me, o, new_, rate) && OthersUntouched(me.name, m, m1)
    requires c1.sold == c.sold && c1.split == c.split
    requires RepricedTo(fee, me, m1, c1, before, rest, after + [new_], rate, timeSlot, m', c')
    ensures RepricedTo(fee, me, m, c, before, [o] + rest, after, rate, timeSlot, m', c')
  {
    hide Again, AtRate, OffRate, IsOff;
    SameSoldSameOff(c, c1, rest, rate, timeSlot);
    var kept, off := AtRate(c, rest, rate, timeSlot), OffRate(c, rest, rate, timeSlot);
    FirstIsOff(c, o, rest, rate, timeSlot);
    var later :| AllAgain(fee, me, off, later, rate) && c'.posted == before + kept + (after + [new_]) + later;
    assert AllAgain(fee, me, [o] + off, [new_] + later, rate);
    assert c'.posted == before + kept + after + ([new_] + later);
  }

  // An offer the loop looks at stays as it is, unless it is off the rate.
  lemma UpdateOfOne(cfg: Config, m: Market, c: Cache, pending: map<nat, Order>, me: Trader, before: Book, o: Order,
                    after: Book, rate: real, timeSlot: Option<int>)
    requires Coherent(me.name, m, c, pending) && !m.readonly && c.posted == before + [o] + after && InSlot(o, timeSlot)
    ensures !IsOff(c, o, rate, timeSlot) ==> Updated(cfg, m, c, me, o, rate) == (m, c)
    ensures IsOff(c, o, rate, timeSlot) <==> Abs(o.price - rate * o.energy) > TOL && Find(c.sold, o.id).None?
  {
    hide Reposted;
    if IsSold(c, o.id) {
      SoldIsGone(me.name, m, c, pending, o.id);
    }
  }

  lemma SoldIsGone(owner: string, m: Market, c: Cache, pending: map<nat, Order>, id: nat)
    requires Coherent(owner, m, c, pending) && IsSold(c, id)
    ensures Find(m.offers, id).None?
  {
  }

  lemma {:induction false} RepricingInOrder(cfg: Config, m: Market, c: Cache, pending: map<nat, Order>, me: Trader,
                                            before: Book, orders: Book, after: Book, rate: real, timeSlot: Option<int>)
    requires Coherent(me.name, m, c, pending) && !m.readonly && RateIsAccepted(cfg.fee, rate)
    requires c.posted == before + orders + after
    ensures var (m', c') := UpdatedAll(cfg, m, c, me, orders, rate, timeSlot);
            RepricedTo(cfg.fee, me, m, c, before, orders, after, rate, timeSlot, m', c')
    decreases |orders|
  {
    hide Coherent, RateIsAccepted, Updated, IsOff, OthersUntouched, Again, RepricedTo;
    if orders == [] {
      NothingRepriced(cfg.fee, me, m, c, before, after, rate, timeSlot);
    } else {
      var o, rest := orders[0], orders[1..];
      assert orders == [o] + rest;
      Regroup(before, [o], rest);
      if !InSlot(o, timeSlot) {
        OutOfSlot(c, o, rate, timeSlot);
        RepricingInOrder(cfg, m, c, pending, me, before + [o], rest, after, rate, timeSlot);
        var (m', c') := UpdatedAll(cfg, m, c, me, rest, rate, timeSlot);
        KeptOne(cfg.fee, me, m, c, before, o, rest, after, rate, timeSlot, m', c');
      } else {
        assert c.posted == before + [o] + (rest + after);
        UpdateOfOne(cfg, m, c, pending, me, before, o, rest + after, rate, timeSlot);
        if !IsOff(c, o, rate, timeSlot) {
          RepricingInOrder(cfg, m, c, pending, me, before + [o], rest, after, rate, timeSlot);
          var (m', c') := UpdatedAll(cfg, m, c, me, rest, rate, timeSlot);
          KeptOne(cfg.fee, me, m, c, before, o, rest, after, rate, timeSlot, m', c');
        } else {
          OneAgain(cfg, m, c, pending, me, before, o, rest + after, rate);
          StillCoherent(cfg, m, c, pending, me, before, o, rest + after, rate);
          var (m1, c1) := Updated(cfg, m, c, me, o, rate);
          var new_ :| Again(cfg.fee, me, o, new_, rate) && c1.posted == before + (rest + after) + [new_];
          assert c1.posted == before + rest + (after + [new_]);
          RepricingInOrder(cfg, m1, c1, pending, me, before, rest, after + [new_], rate, timeSlot);
          var (m', c') := UpdatedAll(cfg, m1, c1, me, rest, rate, timeSlot);
          PostedOneMore(cfg.fee, me, m, m1, c, c1, before, o, rest, after, new_, rate, timeSlot, m', c');
        }
      }
    }
  }

  lemma OutOfSlot(c: Cache, o: Order, rate: real, timeSlot: Option<int>)
    requires !InSlot(o, timeSlot)
    ensures !IsOff(c, o, rate, timeSlot)
  {
  }

  lemma StillCoherent(cfg: Config, m: Market, c: Cache, pending: map<nat, Order>, me: Trader, before: Book, o: Order,
                      after: Book, rate: real)
    requires Coherent(me.name, m, c, pending) && !m.readonly && RateIsAccepted(cfg.fee, rate)
    requires c.posted == before + [o] + after
    ensures var (m', c') := Updated(cfg, m, c, me, o, rate); Coherent(me.name, m', c', pending) && !m'.readonly
  {
    hide Coherent, RateIsAccepted, Updated;
    CoherentParts(me.name, m, c, pending);
    assert o in c.posted;
    InFind(c.posted, o);
    UpdateKeepsIff(cfg, m, c, pending, me, o, rate);
  }

  // At an accepted rate the posted offers end up, in order, as those that were at the rate, sold or of another
  // slot, untouched, and one for each of the others, of its energy and for its slot, at the rate and the fee.
  // These are the strategy's in the market, too; nobody else's have changed.
  lemma OffersEndAtTheRate(cfg: Config, m: Market, c: Cache, pending: map<nat, Order>, me: Trader, rate: real,
                           timeSlot: Option<int>)
    requires Coherent(me.name, m, c, pending) && !m.readonly
    requires if cfg.fee.ConstantFee? then rate + cfg.fee.rate >= 0.0 else rate + rate * cfg.fee.rate >= 0.0
    ensures var (m', c') := UpdatedAll(cfg, m, c, me, c.posted, rate, timeSlot);
            && OthersUntouched(me.name, m, m') && Coherent(me.name, m', c', pending) && c'.sold == c.sold
            && exists new_ :: AllAgain(cfg.fee, me, OffRate(c, c.posted, rate, timeSlot), new_, rate) &&
                              c'.posted == AtRate(c, c.posted, rate, timeSlot) + new_
  {
    hide UpdatedAll, Coherent, OffRate, AtRate, AllAgain, OthersUntouched;
    assert RateIsAccepted(cfg.fee, rate);
    AllPosted(me.name, m, c, pending);
    UpdatingAllKeepsIff(cfg, m, c, pending, me, c.posted, rate, timeSlot);
    assert [] + c.posted + [] == c.posted;
    RepricingInOrder(cfg, m, c, pending, me, [], c.posted, [], rate, timeSlot);
    var (m', c') := UpdatedAll(cfg, m, c, me, c.posted, rate, timeSlot);
    var new_ :| AllAgain(cfg.fee, me, OffRate(c, c.posted, rate, timeSlot), new_, rate) &&
                c'.posted == [] + AtRate(c, c.posted, rate, timeSlot) + [] + new_;
    assert c'.posted == AtRate(c, c.posted, rate, timeSlot) + new_;
  }

  // ----- replacing -----

  lemma {:induction false} WithdrawnAreGone(owner: string, m: Market, c: Cache, pending: map<nat, Order>, orders: Book)
    requires Coherent(owner, m, c, pending) && StillPosted(c, orders)
    ensures var (m', c', error) := WithdrawnAll(m, c, orders);
            && OthersUntouched(owner, m, m') && c'.sold == c.sold
            && (error.None? ==>
                  forall k :: Find(c'.posted, k) == if Find(orders, k).Some? then None else Find(c.posted, k))
    decreases |orders|
  {
    hide Coherent, Removed;
    CoherentParts(owner, m, c, pending);
    if orders != [] {
      var o, rest := orders[0], orders[1..];
      assert o in orders;
      DeletionOfPosted(owner, m, c, pending, o);
      var (m1, r) := DeleteOffer(m, o.id);
      if r.Ok? {
        WithdrawnFromBoth(owner, m, c, pending, o.id);
        RestStaysPosted(owner, m, c, pending, orders);
        OneIsGone(owner, m, c, pending, o.id);
        WithdrawnAreGone(owner, m1, Removed(c, o.id), pending, rest);
      }
    }
  }

  lemma OneIsGone(owner: string, m: Market, c: Cache, pending: map<nat, Order>, id: nat)
    requires Coherent(owner, m, c, pending) && Find(c.posted, id).Some? && DeleteOffer(m, id).1.Ok?
    ensures forall k :: Find(Removed(c, id).posted, k) == if k == id then None else Find(c.posted, k)
    ensures OthersUntouched(owner, m, DeleteOffer(m, id).0)
  {
    NotSoldWhenOpen(owner, m, c, pending, id);
    AfterPop(c.posted, id);
    AfterPop(m.offers, id);
    assert OwnOpen(m, owner, id);
  }

  // A posting that replaces the slot's offers, if it does not raise, leaves the new offer as the only posted
  // one of the slot, and those of other slots as they were.
  lemma ReplacingLeavesOne(cfg: Config, m: Market, c: Cache, pending: map<nat, Order>, me: Trader, price: real,
                           energy: real, originalPrice: Option<real>, timeSlot: int)
    requires Coherent(me.name, m, c, pending)
    requires PostedOne(cfg, m, c, me, price, energy, originalPrice, true, timeSlot).2.Ok?
    ensures var (m', c', r) := PostedOne(cfg, m, c, me, price, energy, originalPrice, true, timeSlot);
            && r.value.energy == energy && r.value.timeSlot == timeSlot && r.value.trader == me
            && r.value.originalPrice == Asked(price, originalPrice)
            && Find(m'.offers, r.value.id) == Some(r.value)
            && forall k :: Find(c'.posted, k) ==
                 if k == r.value.id then Some(r.value)
                 else if Find(c.posted, k).Some? && Find(c.posted, k).value.timeSlot == timeSlot then None
                 else Find(c.posted, k)
  {
    hide Coherent, PostOffer, WithdrawnAll;
    CoherentParts(me.name, m, c, pending);
    PostedInDistinct(c.posted, timeSlot);
    PostedInIsPosted(c, timeSlot);
    var orders := PostedIn(c.posted, timeSlot);
    WithdrawingAllKeeps(me.name, m, c, pending, orders);
    WithdrawnAreGone(me.name, m, c, pending, orders);
    SlotOf(c.posted, timeSlot);
    var (m1, c1, error) := WithdrawnAll(m, c, orders);
    CoherentParts(me.name, m1, c1, pending);
    PostedOffer(cfg, m1, price, energy, me, None, originalPrice, true, true, timeSlot);
    var r := PostOffer(cfg, m1, price, energy, me, None, originalPrice, true, true, timeSlot).1;
    NewIdIsNotSplit(m1.nextId, c1, pending);
    AfterPut(c1.posted, r.value);
  }

  lemma SlotOf(posted: Book, timeSlot: int)
    requires Distinct(posted)
    ensures forall k :: Find(PostedIn(posted, timeSlot), k).Some? <==>
                        Find(posted, k).Some? && Find(posted, k).value.timeSlot == timeSlot
  {
    PostedInDistinct(posted, timeSlot);
    forall k ensures Find(PostedIn(posted, timeSlot), k).Some? <==>
                     Find(posted, k).Some? && Find(posted, k).value.timeSlot == timeSlot
    {
      FindIn(posted, k);
      FindIn(PostedIn(posted, timeSlot), k);
      if Find(PostedIn(posted, timeSlot), k).Some? {
        InFind(posted, Find(PostedIn(posted, timeSlot), k).value);
      }
    }
  }
}
