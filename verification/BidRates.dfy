/** What re-pricing its bids leaves a strategy with: the same energies in the same slots, at the rate it
    asked for. */
module BidRates {
  import opened Numeric
  import opened Books
  import opened MarketState
  import opened StrategyBids
  import opened BidMoves
  import opened Postings

  // A bid of the slot whose price is more than TOL per unit of energy off the rate.
  predicate IsOff(o: Order, rate: real, timeSlot: Option<int>) {
    && (timeSlot.None? || o.timeSlot == timeSlot.value)
    && Abs(o.price - rate * o.energy) > TOL * o.energy
  }

  function OffRate(b: Book, rate: real, timeSlot: Option<int>): Book {
    if b == [] then []
    else (if IsOff(b[0], rate, timeSlot) then [b[0]] else []) + OffRate(b[1..], rate, timeSlot)
  }

  function AtRate(b: Book, rate: real, timeSlot: Option<int>): Book {
    if b == [] then []
    else (if IsOff(b[0], rate, timeSlot) then [] else [b[0]]) + AtRate(b[1..], rate, timeSlot)
  }

  // The same energy for the same slot, at the rate, in the strategy's own name.
  ghost predicate Again(me: Trader, o: Order, new_: Order, rate: real) {
    && new_.energy == o.energy && new_.timeSlot == o.timeSlot && new_.trader == me
    && new_.originalPrice == rate * o.energy && new_.price == rate * o.energy
  }

  ghost predicate AllAgain(me: Trader, old_: Book, new_: Book, rate: real) {
    |new_| == |old_| && forall i :: 0 <= i < |old_| ==> Again(me, old_[i], new_[i], rate)
  }

  lemma OffIsMeasuredPerEnergy(o: Order, rate: real)
    requires o.energy > 0.0
    ensures NeedsUpdate(o, rate) <==> Abs(o.price - rate * o.energy) > TOL * o.energy
  {
    var gap := o.Rate() - rate;
    assert o.Rate() * o.energy == o.price;
    assert gap * o.energy == o.price - rate * o.energy;
    GapPerEnergy(gap, o.energy, o.price - rate * o.energy);
  }

  lemma GapPerEnergy(gap: real, energy: real, total: real)
    requires energy > 0.0 && gap * energy == total
    ensures Abs(gap) > TOL <==> Abs(total) > TOL * energy
  {
    if gap >= 0.0 {
      Larger(gap, energy, total);
    } else {
      assert (-gap) * energy == -total;
      Larger(-gap, energy, -total);
    }
  }

  lemma Larger(x: real, factor: real, product: real)
    requires factor > 0.0 && x >= 0.0 && x * factor == product
    ensures product >= 0.0 && (x > TOL <==> product > TOL * factor)
  {
    if x > TOL {
      assert (x - TOL) * factor > 0.0;
    } else {
      assert (TOL - x) * factor >= 0.0;
    }
  }

  // Everything that is not a bid of the strategy's is as it was.
  ghost predicate OthersUntouched(owner: string, m: Market, m': Market) {
    && m'.offers == m.offers && m'.trades == m.trades && m'.nextId >= m.nextId
    && forall k :: Find(m.bids, k).Some? && Find(m.bids, k).value.trader.name != owner ==>
         Find(m'.bids, k) == Find(m.bids, k)
  }

  // One bid is taken back and posted anew.
  lemma OneAgain(cfg: Config, m: Market, c: BidCache, me: Trader, before: Book, o: Order, after: Book, rate: real)
    requires Agree(me.name, m, c) && c.bids == before + [o] + after && o.energy > TOL && o.id < m.nextId
    ensures var (m1, c1) := Withdrawn(m, c, o.id);
            var (m2, c2, r) := PostedOne(cfg, m1, c1, me, PriceAt(o, rate), o.energy, o.timeSlot);
            && (r.Ok? <==> rate >= 0.0)
            && OthersUntouched(me.name, m, m2)
            && (r.Ok? ==> Again(me, o, r.value, rate) && c2.bids == before + after + [r.value])
  {
    OwnIsDistinct(me.name, m, c);
    PopMiddle(before, o, after);
    assert o in c.bids;
    OwnedIn(m.bids, me.name, o);
    AgreeIsValid(me.name, m, c);
    Mine(m, me.name, o);
    ValidAfterDeleting(m, o.id);
    var (m1, c1) := Withdrawn(m, c, o.id);
    PriceSign(o, rate);
    PostedBid(cfg, m1, PriceAt(o, rate), o.energy, me, None, Some(PriceAt(o, rate)), true, true, o.timeSlot);
    Deleted(m, o.id);
    IdsAreOld(m);
  }

  lemma Mine(m: Market, owner: string, o: Order)
    requires Valid(m) && o in m.bids
    ensures Find(m.bids, o.id) == Some(o)
  {
    InFind(m.bids, o);
  }

  lemma IdsAreOld(m: Market)
    requires Valid(m)
    ensures forall k: nat :: Find(m.bids, k).Some? ==> k < m.nextId
  {
    forall k: nat | Find(m.bids, k).Some? ensures k < m.nextId {
      FindIn(m.bids, k);
    }
  }

  lemma PriceSign(o: Order, rate: real)
    requires o.energy > 0.0
    ensures PriceAt(o, rate) == rate * o.energy && (PriceAt(o, rate) >= 0.0 <==> rate >= 0.0)
  {
    if rate >= 0.0 {
      assert rate * o.energy >= 0.0;
    } else {
      assert -rate * o.energy > 0.0;
    }
  }

  // The bids a strategy has recorded carry more than TOL, and ids handed out before.
  lemma RecordedAreOpen(owner: string, m: Market, c: BidCache)
    requires Agree(owner, m, c)
    ensures forall b :: b in c.bids ==> b.energy > TOL && b.id < m.nextId
  {
    forall b | b in c.bids ensures b.energy > TOL && b.id < m.nextId {
      OwnedIn(m.bids, owner, b);
      InFind(m.bids, b);
      assert OpenBid(b, m.nextId);
    }
  }

  // What the loop leads to: the bids it has dealt with, those it has left, and those it has posted.
  ghost predicate RepricedTo(me: Trader, m: Market, before: Book, bids: Book, after: Book, rate: real,
                             timeSlot: Option<int>, m': Market, c': BidCache, error: Option<Error>) {
    && OthersUntouched(me.name, m, m')
    && (error.Some? <==> rate < 0.0 && OffRate(bids, rate, timeSlot) != [])
    && (error.None? ==>
          exists new_ :: AllAgain(me, OffRate(bids, rate, timeSlot), new_, rate) &&
                         c'.bids == before + AtRate(bids, rate, timeSlot) + after + new_)
  }

  lemma {:induction false} RepricingInOrder(cfg: Config, m: Market, c: BidCache, me: Trader, before: Book, bids: Book,
                                            after: Book, rate: real, timeSlot: Option<int>)
    requires Agree(me.name, m, c) && c.bids == before + bids + after
    requires forall b :: b in bids ==> b.energy > TOL && b.id < m.nextId
    ensures var (m', c', error) := Repriced(cfg, m, c, me, bids, rate, timeSlot);
            RepricedTo(me, m, before, bids, after, rate, timeSlot, m', c', error)
    decreases |bids|
  {
    hide Agree, PriceAt, Again, NeedsUpdate, IsOff, OthersUntouched;
    if bids == [] {
      NothingRepriced(me, m, c, before, after, rate, timeSlot);
    } else {
      var o, rest := bids[0], bids[1..];
      assert o in bids && bids == [o] + rest;
      OffIsMeasuredPerEnergy(o, rate);
      OffOrNot(o, rate, timeSlot);
      Regroup(before, [o], rest);
      if !IsOff(o, rate, timeSlot) {
        RepricingInOrder(cfg, m, c, me, before + [o], rest, after, rate, timeSlot);
        KeptOne(me, m, before, o, rest, after, rate, timeSlot, Repriced(cfg, m, c, me, rest, rate, timeSlot));
      } else {
        assert c.bids == before + [o] + (rest + after);
        OneAgain(cfg, m, c, me, before, o, rest + after, rate);
        var (m1, c1) := Withdrawn(m, c, o.id);
        var (m2, c2, r) := PostedOne(cfg, m1, c1, me, PriceAt(o, rate), o.energy, o.timeSlot);
        if r.Ok? {
          WithdrawingOwn(me.name, m, c, before, o, rest + after);
          PostingOneKeeps(cfg, m1, c1, me, PriceAt(o, rate), o.energy, o.timeSlot);
          IdsGrow(me.name, m, m2);
          assert c2.bids == before + rest + (after + [r.value]);
          RepricingInOrder(cfg, m2, c2, me, before, rest, after + [r.value], rate, timeSlot);
          PostedOneMore(me, m, m2, before, o, rest, after, r.value, rate, timeSlot,
                        Repriced(cfg, m2, c2, me, rest, rate, timeSlot));
        }
      }
    }
  }

  lemma IdsGrow(owner: string, m: Market, m': Market)
    requires OthersUntouched(owner, m, m')
    ensures m'.nextId >= m.nextId
  {
  }

  lemma OffOrNot(o: Order, rate: real, timeSlot: Option<int>)
    requires o.energy > 0.0
    requires NeedsUpdate(o, rate) <==> Abs(o.price - rate * o.energy) > TOL * o.energy
    ensures IsOff(o, rate, timeSlot) <==> InSlot(o, timeSlot) && NeedsUpdate(o, rate)
  {
  }

  lemma WithdrawingOwn(owner: string, m: Market, c: BidCache, before: Book, o: Order, after: Book)
    requires Agree(owner, m, c) && c.bids == before + [o] + after
    ensures var (m', c') := Withdrawn(m, c, o.id); Agree(owner, m', c')
  {
    OwnIsDistinct(owner, m, c);
    assert o in c.bids;
    InFind(c.bids, o);
    WithdrawingKeeps(owner, m, c, o.id);
  }

  lemma NothingRepriced(me: Trader, m: Market, c: BidCache, before: Book, after: Book, rate: real,
                        timeSlot: Option<int>)
    requires c.bids == before + [] + after
    ensures RepricedTo(me, m, before, [], after, rate, timeSlot, m, c, None)
  {
    assert AllAgain(me, OffRate([], rate, timeSlot), [], rate);
    assert c.bids == before + AtRate([], rate, timeSlot) + after + [];
  }

  lemma FirstIsAtRate(o: Order, rest: Book, rate: real, timeSlot: Option<int>)
    requires !IsOff(o, rate, timeSlot)
    ensures AtRate([o] + rest, rate, timeSlot) == [o] + AtRate(rest, rate, timeSlot)
    ensures OffRate([o] + rest, rate, timeSlot) == OffRate(rest, rate, timeSlot)
  {
    hide IsOff;
    assert ([o] + rest)[1..] == rest;
    assert [] + OffRate(rest, rate, timeSlot) == OffRate(rest, rate, timeSlot);
  }

  lemma FirstIsOff(o: Order, rest: Book, rate: real, timeSlot: Option<int>)
    requires IsOff(o, rate, timeSlot)
    ensures AtRate([o] + rest, rate, timeSlot) == AtRate(rest, rate, timeSlot)
    ensures OffRate([o] + rest, rate, timeSlot) == [o] + OffRate(rest, rate, timeSlot)
  {
    hide IsOff;
    assert ([o] + rest)[1..] == rest;
    assert [] + AtRate(rest, rate, timeSlot) == AtRate(rest, rate, timeSlot);
  }

  lemma KeptOne(me: Trader, m: Market, before: Book, o: Order, rest: Book, after: Book, rate: real,
                timeSlot: Option<int>, result: (Market, BidCache, Option<Error>))
    requires !IsOff(o, rate, timeSlot)
    requires RepricedTo(me, m, before + [o], rest, after, rate, timeSlot, result.0, result.1, result.2)
    ensures RepricedTo(me, m, before, [o] + rest, after, rate, timeSlot, result.0, result.1, result.2)
  {
    hide AtRate, OffRate, AllAgain, OthersUntouched, IsOff;
    var kept, off := AtRate(rest, rate, timeSlot), OffRate(rest, rate, timeSlot);
    FirstIsAtRate(o, rest, rate, timeSlot);
    if result.2.None? {
      var new_ :| AllAgain(me, off, new_, rate) && result.1.bids == before + [o] + kept + after + new_;
      assert result.1.bids == before + ([o] + kept) + after + new_;
    }
  }

  lemma PostedOneMore(me: Trader, m: Market, m1: Market, before: Book, o: Order, rest: Book, after: Book, new_: Order,
                      rate: real, timeSlot: Option<int>, result: (Market, BidCache, Option<Error>))
    requires IsOff(o, rate, timeSlot) && Again(me, o, new_, rate) && OthersUntouched(me.name, m, m1) && rate >= 0.0
    requires RepricedTo(me, m1, before, rest, after + [new_], rate, timeSlot, result.0, result.1, result.2)
    ensures RepricedTo(me, m, before, [o] + rest, after, rate, timeSlot, result.0, result.1, result.2)
  {
    hide Again, AtRate, OffRate, IsOff;
    var kept, off := AtRate(rest, rate, timeSlot), OffRate(rest, rate, timeSlot);
    FirstIsOff(o, rest, rate, timeSlot);
    if result.2.None? {
      var later :| AllAgain(me, off, later, rate) && result.1.bids == before + kept + (after + [new_]) + later;
      assert AllAgain(me, [o] + off, [new_] + later, rate);
      assert result.1.bids == before + kept + after + ([new_] + later);
    }
  }

  // Re-pricing raises exactly if the rate is below zero and some bid has to be re-priced. Otherwise the
  // recorded bids are, in order, those that were at the rate or of another slot, untouched, and one for each
  // of the others, of its energy and for its slot, at the rate. These are the market's bids of that buyer;
  // nobody else's have changed.
  lemma BidsEndAtTheRate(cfg: Config, m: Market, c: BidCache, me: Trader, rate: real, timeSlot: Option<int>)
    requires Agree(me.name, m, c)
    ensures forall b :: b in c.bids ==> b.energy > 0.0
    ensures var (m', c', error) := Repriced(cfg, m, c, me, c.bids, rate, timeSlot);
            && (error.Some? <==> rate < 0.0 && OffRate(c.bids, rate, timeSlot) != [])
            && OthersUntouched(me.name, m, m') && Owned(m'.bids, me.name) == c'.bids
            && (error.None? ==>
                  exists new_ :: AllAgain(me, OffRate(c.bids, rate, timeSlot), new_, rate) &&
                                 c'.bids == AtRate(c.bids, rate, timeSlot) + new_)
  {
    hide Agree, Repriced, RepricedTo, OffRate, AtRate, AllAgain, OthersUntouched;
    RecordedAreOpen(me.name, m, c);
    RecordedCarryEnergy(me.name, m, c);
    OwnIsDistinct(me.name, m, c);
    RepricingKeeps(cfg, m, c, me, c.bids, rate, timeSlot);
    assert [] + c.bids + [] == c.bids;
    RepricingInOrder(cfg, m, c, me, [], c.bids, [], rate, timeSlot);
    var (m', c', error) := Repriced(cfg, m, c, me, c.bids, rate, timeSlot);
    AllRepriced(me, m, c.bids, rate, timeSlot, m', c', error);
    AgreeIsOwned(me.name, m', c');
  }

  lemma AllRepriced(me: Trader, m: Market, bids: Book, rate: real, timeSlot: Option<int>, m': Market, c': BidCache,
                    error: Option<Error>)
    requires RepricedTo(me, m, [], bids, [], rate, timeSlot, m', c', error)
    ensures OthersUntouched(me.name, m, m') && (error.Some? <==> rate < 0.0 && OffRate(bids, rate, timeSlot) != [])
    ensures error.None? ==> exists new_ :: AllAgain(me, OffRate(bids, rate, timeSlot), new_, rate) &&
                                           c'.bids == AtRate(bids, rate, timeSlot) + new_
  {
    hide OffRate, AtRate, AllAgain, OthersUntouched;
    if error.None? {
      var new_ :| AllAgain(me, OffRate(bids, rate, timeSlot), new_, rate) &&
                  c'.bids == [] + AtRate(bids, rate, timeSlot) + [] + new_;
      assert c'.bids == AtRate(bids, rate, timeSlot) + new_;
    }
  }

  lemma AgreeIsOwned(owner: string, m: Market, c: BidCache)
    requires Agree(owner, m, c)
    ensures Owned(m.bids, owner) == c.bids
  {
  }

  // ----- replacing -----

  function OtherSlots(b: Book, timeSlot: int): Book {
    if b == [] then []
    else (if b[0].timeSlot == timeSlot then [] else [b[0]]) + OtherSlots(b[1..], timeSlot)
  }

  lemma {:induction false} WithdrawnInOrder(m: Market, c: BidCache, me: Trader, before: Book, bids: Book, timeSlot: int)
    requires Agree(me.name, m, c) && c.bids == before + bids
    ensures var (m', c') := WithdrawnAll(m, c, bids, Some(timeSlot));
            && Agree(me.name, m', c') && c'.bids == before + OtherSlots(bids, timeSlot)
            && OthersUntouched(me.name, m, m') && m'.nextId == m.nextId
    decreases |bids|
  {
    hide Agree, OthersUntouched;
    SameMarketUntouched(me.name, m);
    if bids == [] {
      assert before + [] == before;
    } else {
      var o, rest := bids[0], bids[1..];
      assert bids == [o] + rest;
      if InSlot(o, Some(timeSlot)) {
        WithdrawnOne(m, c, me, before, o, rest);
        var (m1, c1) := Withdrawn(m, c, o.id);
        WithdrawnInOrder(m1, c1, me, before, rest, timeSlot);
        UntouchedBoth(me.name, m, m1, WithdrawnAll(m1, c1, rest, Some(timeSlot)).0);
        assert [] + OtherSlots(rest, timeSlot) == OtherSlots(rest, timeSlot);
      } else {
        Regroup(before, [o], rest);
        Regroup(before, [o], OtherSlots(rest, timeSlot));
        WithdrawnInOrder(m, c, me, before + [o], rest, timeSlot);
      }
    }
  }

  lemma SameMarketUntouched(owner: string, m: Market)
    ensures OthersUntouched(owner, m, m)
  {
  }

  lemma UntouchedBoth(owner: string, m: Market, m1: Market, m2: Market)
    requires OthersUntouched(owner, m, m1) && OthersUntouched(owner, m1, m2)
    ensures OthersUntouched(owner, m, m2)
  {
  }

  lemma WithdrawnOne(m: Market, c: BidCache, me: Trader, before: Book, o: Order, rest: Book)
    requires Agree(me.name, m, c) && c.bids == before + ([o] + rest)
    ensures var (m1, c1) := Withdrawn(m, c, o.id);
            && Agree(me.name, m1, c1) && c1.bids == before + rest
            && OthersUntouched(me.name, m, m1) && m1.nextId == m.nextId
  {
    Regroup(before, [o], rest);
    OwnIsDistinct(me.name, m, c);
    PopMiddle(before, o, rest);
    WithdrawingOwn(me.name, m, c, before, o, rest);
    assert o in c.bids;
    OwnedIn(m.bids, me.name, o);
    Mine(m, me.name, o);
    Deleted(m, o.id);
  }

  // A posting that replaces the slot's bids leaves the new bid, if the market takes it, as the only one of the
  // slot, behind those of other slots.
  lemma ReplacingLeavesOne(cfg: Config, m: Market, c: BidCache, me: Trader, price: real, energy: real, timeSlot: int)
    requires Agree(me.name, m, c)
    ensures var (m', c', r) := Posted(cfg, m, c, me, price, energy, true, timeSlot);
            && (r.Ok? <==> energy > TOL && price >= 0.0)
            && OthersUntouched(me.name, m, m')
            && c'.bids == OtherSlots(c.bids, timeSlot) + (if r.Ok? then [r.value] else [])
            && (r.Ok? ==> PostedAs(r.value, m.nextId, energy, price, me, timeSlot) && r.value.price == price)
  {
    hide Agree, OthersUntouched, OtherSlots, WithdrawnAll, PostBid;
    assert [] + c.bids == c.bids;
    WithdrawnInOrder(m, c, me, [], c.bids, timeSlot);
    var (m1, c1) := WithdrawnAll(m, c, c.bids, Some(timeSlot));
    AgreeIsValid(me.name, m1, c1);
    PostedBid(cfg, m1, price, energy, me, None, Some(price), true, true, timeSlot);
    PostedUntouched(cfg, m1, me, price, energy, timeSlot);
    UntouchedBoth(me.name, m, m1, PostBid(cfg, m1, price, energy, me, None, Some(price), true, true, timeSlot).0);
  }

  lemma PostedUntouched(cfg: Config, m: Market, me: Trader, price: real, energy: real, timeSlot: int)
    requires Valid(m)
    ensures OthersUntouched(me.name, m, PostBid(cfg, m, price, energy, me, None, Some(price), true, true, timeSlot).0)
  {
    hide PostBid;
    IdsAreOld(m);
    PostedBid(cfg, m, price, energy, me, None, Some(price), true, true, timeSlot);
  }
}
