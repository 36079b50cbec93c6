/** What a strategy does with its own offers: posting, withdrawing, replacing and re-pricing them, and
    when its records stay right. */
module OwnerMoves {
  import opened Numeric
  import opened Books
  import opened Fees
  import opened MarketState
  import opened TwoSided
  import opened StrategyOffers
  import opened OfferCoherence

  // ----- deleting and re-pricing -----

  // Delete in the market, then forget; a refused deletion changes nothing.
  function Withdrawn(m: Market, c: Cache, id: nat): (Market, Cache) {
    var (m', r) := DeleteOffer(m, id);
    (m', if r.Ok? then Removed(c, id) else c)
  }

  // Offers one after the other, up to the first refused deletion.
  function WithdrawnAll(m: Market, c: Cache, orders: Book): (Market, Cache, Option<Error>)
    decreases |orders|
  {
    if orders == [] then (m, c, None)
    else
      var (m1, r) := DeleteOffer(m, orders[0].id);
      if r.Err? then (m1, c, Some(r.error)) else WithdrawnAll(m1, Removed(c, orders[0].id), orders[1..])
  }

  // The offers to be deleted: all open ones, or the posted one with the given id.
  function ToDelete(c: Cache, id: Option<nat>): Book {
    match id
    case None => OpenOrders(c, c.posted, None)
    case Some(k) => if Find(c.posted, k).Some? then [Find(c.posted, k).value] else []
  }

  // `posted_in_market`, sold offers included.
  function PostedIn(posted: Book, timeSlot: int): Book {
    if posted == [] then []
    else (if InSlot(posted[0], Some(timeSlot)) then [posted[0]] else []) + PostedIn(posted[1..], timeSlot)
  }

  // The offers of the slot that a posting replaces go first; the posting itself may still be refused.
  function Cleared(m: Market, c: Cache, replaceExisting: bool, timeSlot: int): (Market, Cache, Option<Error>) {
    if replaceExisting then WithdrawnAll(m, c, PostedIn(c.posted, timeSlot)) else (m, c, None)
  }

  function PostedOne(cfg: Config, m: Market, c: Cache, me: Trader, price: real, energy: real,
                     originalPrice: Option<real>, replaceExisting: bool, timeSlot: int): (Market, Cache, Result<Order>)
  {
    var (m1, c1, error) := Cleared(m, c, replaceExisting, timeSlot);
    if error.Some? then (m1, c1, Err(error.value))
    else
      var (m2, r) := PostOffer(cfg, m1, price, energy, me, None, originalPrice, true, true, timeSlot);
      (m2, if r.Ok? then Posted(c1, r.value) else c1, r)
  }

  predicate NeedsUpdate(o: Order, rate: real) {
    Abs(o.price - PriceAt(o, rate)) > TOL
  }

  function Reposted(cfg: Config, m: Market, me: Trader, o: Order, price: real): (Market, Result<Order>) {
    PostOffer(cfg, m, price, o.energy, me.(originUuid := o.trader.originUuid), None, Some(price), true, true,
              o.timeSlot)
  }

  // Deletes one posted offer and posts an equivalent one at the new rate. Every refusal by the
  // market is swallowed.
  function Updated(cfg: Config, m: Market, c: Cache, me: Trader, o: Order, rate: real): (Market, Cache) {
    if !NeedsUpdate(o, rate) then (m, c)
    else
      var (m1, deleted) := DeleteOffer(m, o.id);
      if deleted.Err? then (m1, c)
      else
        var (m2, posted) := Reposted(cfg, m1, me, o, PriceAt(o, rate));
        (m2, if posted.Ok? then Replaced(c, o, posted.value) else c)
  }

  function UpdatedAll(cfg: Config, m: Market, c: Cache, me: Trader, orders: Book, rate: real, timeSlot: Option<int>)
    : (Market, Cache)
    decreases |orders|
  {
    if orders == [] then (m, c)
    else
      var (m1, c1) := if InSlot(orders[0], timeSlot) then Updated(cfg, m, c, me, orders[0], rate) else (m, c);
      UpdatedAll(cfg, m1, c1, me, orders[1..], rate, timeSlot)
  }

  // An id that is not posted is not looked for in the market.
  method RemoveOfferFromCacheAndMarket(market: TwoSidedMarket, records: Offers, id: Option<nat>)
    returns (error: Option<Error>)
    requires Distinct(records.posted)
    modifies market, records
    ensures (market.State(), records.State(), error) ==
            WithdrawnAll(old(market.State()), old(records.State()), ToDelete(old(records.State()), id))
    ensures Distinct(records.posted)
  {
    var orders;
    if id.None? {
      orders := records.OpenInMarket(None);
    } else {
      orders := ToDelete(records.State(), id);
    }
    ToDeleteIsPosted(records.State(), id);
    ghost var m0, c0 := market.State(), records.State();
    assert orders[0..] == orders;
    for i := 0 to |orders|
      invariant WithdrawnAll(m0, c0, orders) == WithdrawnAll(market.State(), records.State(), orders[i..])
      invariant Distinct(records.posted) && ArePosted(records.State(), orders[i..])
    {
      hide Removed, Distinct;
      assert orders[i..][0] == orders[i] && orders[i..][1..] == orders[i + 1..];
      RemovalTouchesOne(records.State(), orders[i..]);
      var r := market.DeleteOffer(orders[i].id);
      if r.Err? {
        return Some(r.error);
      }
      var _ := records.Remove(orders[i].id);
    }
    return None;
  }

  // The offers of the list are posted, each under an id of its own.
  ghost predicate ArePosted(c: Cache, orders: Book) {
    Distinct(orders) && forall o :: o in orders ==> Find(c.posted, o.id).Some?
  }

  lemma RemovalTouchesOne(c: Cache, orders: Book)
    requires Distinct(c.posted) && ArePosted(c, orders) && orders != []
    ensures var c' := Removed(c, orders[0].id);
            Distinct(c'.posted) && ArePosted(c', orders[1..]) && c'.sold == c.sold && c'.split == c.split
    ensures Find(c.posted, orders[0].id).Some?
  {
    hide Find, Pop, Put;
    var id := orders[0].id;
    assert orders[0] in orders && Distinct(orders[1..]);
    DistinctTail(orders);
    FindIn(c.posted, id);
    AfterPop(c.posted, id);
    AfterPut(Pop(c.posted, id), Find(c.posted, id).value);
    forall o | o in orders[1..] ensures Find(Removed(c, id).posted, o.id).Some? {
      assert o in orders && o.id != id;
    }
  }

  lemma DistinctTail(b: Book)
    requires Distinct(b) && b != []
    ensures Distinct(b[1..]) && forall o :: o in b[1..] ==> o.id != b[0].id
  {
    FindIn(b[1..], b[0].id);
  }

  lemma {:induction false} OpenOrdersDistinct(c: Cache, posted: Book, timeSlot: Option<int>)
    requires Distinct(posted)
    ensures Distinct(OpenOrders(c, posted, timeSlot))
    ensures forall o :: o in OpenOrders(c, posted, timeSlot) <==> o in posted && IsOpenIn(c, o, timeSlot)
  {
    if posted != [] {
      OpenOrdersDistinct(c, posted[1..], timeSlot);
      assert posted == [posted[0]] + posted[1..];
      DistinctTail(posted);
      DistinctWith(posted[0], OpenOrders(c, posted[1..], timeSlot));
    }
  }

  lemma {:induction false} PostedInDistinct(posted: Book, timeSlot: int)
    requires Distinct(posted)
    ensures Distinct(PostedIn(posted, timeSlot))
    ensures forall o :: o in PostedIn(posted, timeSlot) <==> o in posted && o.timeSlot == timeSlot
  {
    if posted != [] {
      PostedInDistinct(posted[1..], timeSlot);
      assert posted == [posted[0]] + posted[1..];
      DistinctTail(posted);
      DistinctWith(posted[0], PostedIn(posted[1..], timeSlot));
    }
  }

  lemma DistinctWith(o: Order, b: Book)
    requires Distinct(b) && forall x :: x in b ==> x.id != o.id
    ensures Distinct([o] + b) && [] + b == b
  {
    FindIn(b, o.id);
    assert ([o] + b)[1..] == b;
  }

  lemma ToDeleteIsPosted(c: Cache, id: Option<nat>)
    requires Distinct(c.posted)
    ensures ArePosted(c, ToDelete(c, id))
    ensures forall o :: o in ToDelete(c, id) ==> Find(c.posted, o.id) == Some(o)
  {
    OpenOrdersDistinct(c, c.posted, None);
    forall o | o in ToDelete(c, id) ensures Find(c.posted, o.id) == Some(o) {
      if id.None? {
        InFind(c.posted, o);
      } else {
        FindIn(c.posted, id.value);
      }
    }
  }

  lemma PostedInIsPosted(c: Cache, timeSlot: int)
    requires Distinct(c.posted)
    ensures ArePosted(c, PostedIn(c.posted, timeSlot))
    ensures forall o :: o in PostedIn(c.posted, timeSlot) ==> Find(c.posted, o.id) == Some(o)
  {
    PostedInDistinct(c.posted, timeSlot);
    forall o | o in PostedIn(c.posted, timeSlot) ensures Find(c.posted, o.id) == Some(o) {
      InFind(c.posted, o);
    }
  }

  // Deleting one posted offer by its id.
  lemma OneToDelete(m: Market, c: Cache, id: nat)
    requires Find(c.posted, id).Some?
    ensures var (m1, r) := DeleteOffer(m, id);
            WithdrawnAll(m, c, ToDelete(c, Some(id))) ==
            if r.Err? then (m1, c, Some(r.error)) else (m1, Removed(c, id), None)
  {
    FindIn(c.posted, id);
    var o := Find(c.posted, id).value;
    assert [o][1..] == [];
  }

  // Every posted offer of the slot, sold or not, is to go.
  method RemoveExistingOffers(market: TwoSidedMarket, records: Offers, timeSlot: int) returns (error: Option<Error>)
    requires Distinct(records.posted)
    modifies market, records
    ensures (market.State(), records.State(), error) ==
            WithdrawnAll(old(market.State()), old(records.State()), PostedIn(old(records.posted), timeSlot))
  {
    var posted := PostedIn(records.posted, timeSlot);
    PostedInIsPosted(records.State(), timeSlot);
    ghost var m0, c0 := market.State(), records.State();
    assert posted[0..] == posted;
    for i := 0 to |posted|
      invariant WithdrawnAll(m0, c0, posted) == WithdrawnAll(market.State(), records.State(), posted[i..])
      invariant Distinct(records.posted) && ArePosted(records.State(), posted[i..])
    {
      hide Removed, Distinct;
      assert posted[i..][0] == posted[i] && posted[i..][1..] == posted[i + 1..];
      RemovalTouchesOne(records.State(), posted[i..]);
      OneToDelete(market.State(), records.State(), posted[i].id);
      var refused := RemoveOfferFromCacheAndMarket(market, records, Some(posted[i].id));
      if refused.Some? {
        return refused;
      }
    }
    return None;
  }

  method PostNewOffer(market: TwoSidedMarket, records: Offers, me: Trader, price: real, energy: real,
                      originalPrice: Option<real>, replaceExisting: bool, timeSlot: int) returns (r: Result<Order>)
    requires Distinct(records.posted)
    modifies market, records
    ensures (market.State(), records.State(), r) ==
            PostedOne(market.cfg, old(market.State()), old(records.State()), me, price, energy, originalPrice,
                      replaceExisting, timeSlot)
  {
    hide PostOffer;
    if replaceExisting {
      var error := RemoveExistingOffers(market, records, timeSlot);
      if error.Some? {
        return Err(error.value);
      }
    }
    r := market.Offer(price, energy, me, None, originalPrice, true, true, timeSlot);
    if r.Ok? {
      records.Post(r.value);
    }
  }

  method UpdateOffer(market: TwoSidedMarket, records: Offers, me: Trader, offer: Order, rate: real)
    requires Find(records.posted, offer.id).Some?
    modifies market, records
    ensures (market.State(), records.State()) ==
            Updated(market.cfg, old(market.State()), old(records.State()), me, offer, rate)
  {
    if !NeedsUpdate(offer, rate) {
      return;
    }
    var deleted := market.DeleteOffer(offer.id);
    if deleted.Err? {
      return;
    }
    var price := PriceAt(offer, rate);
    var posted := market.Offer(price, offer.energy, me.(originUuid := offer.trader.originUuid), None, Some(price),
                               true, true, offer.timeSlot);
    hide PostOffer, DeleteOffer;
    if posted.Ok? {
      records.Replace(offer, posted.value);
    }
  }

  // Replaces the offers posted in the slot, one after the other, by offers at the updated rate.
  method UpdateOfferRates(market: TwoSidedMarket, records: Offers, me: Trader, rate: real, timeSlot: Option<int>)
    requires Distinct(records.posted)
    modifies market, records
    ensures (market.State(), records.State()) ==
            if OpenOrders(old(records.State()), old(records.posted), None) == []
            then (old(market.State()), old(records.State()))
            else UpdatedAll(market.cfg, old(market.State()), old(records.State()), me, old(records.posted), rate,
                            timeSlot)
  {
    var open := records.OpenInMarket(None);
    if open == [] {
      return;
    }
    var offers := records.posted;
    ghost var m0, c0 := market.State(), records.State();
    assert offers[0..] == offers;
    forall j | 0 <= j < |offers| ensures Find(offers, offers[j].id).Some? {
      InFind(offers, offers[j]);
    }
    for i := 0 to |offers|
      invariant UpdatedAll(market.cfg, m0, c0, me, offers, rate, timeSlot) ==
                UpdatedAll(market.cfg, market.State(), records.State(), me, offers[i..], rate, timeSlot)
      invariant Distinct(records.posted)
      invariant forall j :: i <= j < |offers| ==> Find(records.posted, offers[j].id).Some?
    {
      hide Updated, Put, Pop;
      assert offers[i..][0] == offers[i] && offers[i..][1..] == offers[i + 1..];
      if InSlot(offers[i], timeSlot) {
        OthersStayPosted(market.cfg, market.State(), records.State(), me, offers, i, rate);
        UpdateOffer(market, records, me, offers[i], rate);
      }
    }
  }

  // An update touches no other posted offer.
  lemma UpdateTouchesOne(cfg: Config, m: Market, c: Cache, me: Trader, o: Order, rate: real)
    requires Distinct(c.posted) && Find(c.posted, o.id).Some?
    ensures var (m', c') := Updated(cfg, m, c, me, o, rate);
            && Distinct(c'.posted) && c'.sold == c.sold && c'.split == c.split
            && (forall k :: k != o.id && k != m.nextId ==> Find(c'.posted, k) == Find(c.posted, k))
            && (forall k :: k != o.id && Find(c.posted, k).Some? ==> Find(c'.posted, k).Some?)
            && m.nextId <= m'.nextId
  {
    hide Find, Pop, Put, Distinct, OfferPriceWithFee;
    var (m1, deleted) := DeleteOffer(m, o.id);
    var (m2, posted) := Reposted(cfg, m1, me, o, PriceAt(o, rate));
    FindIn(c.posted, o.id);
    AfterPop(c.posted, o.id);
    AfterPut(Pop(c.posted, o.id), Find(c.posted, o.id).value);
    if posted.Ok? {
      AfterPut(Pop(c.posted, o.id), posted.value);
    }
  }

  lemma {:induction false} DistinctIds(b: Book, i: nat, j: nat)
    requires Distinct(b) && i < j < |b|
    ensures b[i].id != b[j].id
  {
    if i == 0 {
      FindIn(b[1..], b[0].id);
      assert b[j] == b[1..][j - 1];
    } else {
      DistinctIds(b[1..], i - 1, j - 1);
    }
  }

  lemma OthersStayPosted(cfg: Config, m: Market, c: Cache, me: Trader, offers: Book, i: nat, rate: real)
    requires Distinct(c.posted) && i < |offers| && Distinct(offers)
    requires forall j :: i <= j < |offers| ==> Find(c.posted, offers[j].id).Some?
    ensures var (m', c') := Updated(cfg, m, c, me, offers[i], rate);
            && Distinct(c'.posted)
            && forall j :: i < j < |offers| ==> Find(c'.posted, offers[j].id).Some?
  {
    hide Updated;
    UpdateTouchesOne(cfg, m, c, me, offers[i], rate);
    forall j | i < j < |offers| ensures Find(Updated(cfg, m, c, me, offers[i], rate).1.posted, offers[j].id).Some? {
      DistinctIds(offers, i, j);
    }
  }

  // ----- coherence of the strategy's own moves -----

  // The market has taken an offer of the owner's that the strategy has yet to record.
  lemma PostedIsAwaited(cfg: Config, owner: string, m: Market, c: Cache, pending: map<nat, Order>, price: real,
                        energy: real, seller: Trader, originalPrice: Option<real>, timeSlot: int)
    requires Coherent(owner, m, c, pending) && seller.name == owner
    ensures var (m', r) := PostOffer(cfg, m, price, energy, seller, None, originalPrice, true, true, timeSlot);
            && |m.events| <= |m'.events| && Caught(c, owner, m, m') == c
            && (r.Ok? ==> Coherent(owner, m', c, pending[r.value.id := r.value]))
            && (r.Err? ==> m' == m)
  {
    hide OfferPriceWithFee, OffersValid, BidsValid, Put, SoldOrders;
    var (m', r) := PostOffer(cfg, m, price, energy, seller, None, originalPrice, true, true, timeSlot);
    ValidAfterPostOffer(cfg, m, price, energy, seller, originalPrice, true, true, timeSlot);
    if r.Ok? {
      FreshOffer(m.offers, m.nextId);
      DistinctOffers(m);
      AfterPut(m.offers, r.value);
      assert m'.events[|m.events|..] == [OfferPosted(r.value)];
      AfterTwo(c, owner, OfferPosted(r.value), OfferPosted(r.value));
      assert OpenAgree(owner, m', c, pending[r.value.id := r.value]);
    } else {
      assert m'.events[|m.events|..] == [];
    }
  }

  // Recording an awaited offer, however much of it was split or sold in the meantime.
  lemma RecordingKeeps(owner: string, m: Market, c: Cache, pending: map<nat, Order>, id: nat)
    requires Coherent(owner, m, c, pending) && id in pending && pending[id].id == id
    ensures Coherent(owner, m, Posted(c, pending[id]), pending - {id})
  {
    hide OffersValid, BidsValid, Put, SoldOrders;
    AfterPut(c.posted, pending[id]);
    assert OpenAgree(owner, m, Posted(c, pending[id]), pending - {id});
  }

  // One id leaves the market and the records together.
  ghost predicate Dropped(b: Book, b': Book, id: nat) {
    forall k :: Find(b', k) == if k == id then None else Find(b, k)
  }

  lemma DroppedKeepsOpen(owner: string, m: Market, m': Market, c: Cache, c': Cache, pending: map<nat, Order>, id: nat)
    requires OpenAgree(owner, m, c, pending) && IdsAgree(m.nextId, c, pending) && Find(c.posted, id).Some?
    requires Dropped(m.offers, m'.offers, id) && Dropped(c.posted, c'.posted, id)
    requires c'.sold == c.sold && c'.split == c.split
    ensures OpenAgree(owner, m', c', pending)
  {
  }

  lemma WithdrawingKeeps(owner: string, m: Market, c: Cache, pending: map<nat, Order>, id: nat)
    requires Coherent(owner, m, c, pending) && Find(c.posted, id).Some?
    ensures var (m', c') := Withdrawn(m, c, id);
            Coherent(owner, m', c', pending)
  {
    hide Coherent;
    if DeleteOffer(m, id).1.Ok? {
      WithdrawnFromBoth(owner, m, c, pending, id);
    } else {
      assert Withdrawn(m, c, id) == (m, c);
    }
  }

  lemma WithdrawnFromBoth(owner: string, m: Market, c: Cache, pending: map<nat, Order>, id: nat)
    requires Coherent(owner, m, c, pending) && Find(c.posted, id).Some? && DeleteOffer(m, id).1.Ok?
    ensures Coherent(owner, DeleteOffer(m, id).0, Removed(c, id), pending)
  {
    hide Coherent, Valid, Pop, OpenAgree, SoldAgree, IdsAgree;
    var m', c' := DeleteOffer(m, id).0, Removed(c, id);
    CoherentParts(owner, m, c, pending);
    ValidAfterDeleting(m, id);
    AfterPop(m.offers, id);
    AfterPop(c.posted, id);
    NotSoldWhenOpen(owner, m, c, pending, id);
    DroppedKeepsOpen(owner, m, m', c, c', pending, id);
    DroppedKeepsRest(owner, m, m', c, c', pending, id);
    CoherentFrom(owner, m', c', pending);
  }

  lemma CoherentParts(owner: string, m: Market, c: Cache, pending: map<nat, Order>)
    requires Coherent(owner, m, c, pending)
    ensures Valid(m) && OpenAgree(owner, m, c, pending) && SoldAgree(owner, m.trades, c)
    ensures IdsAgree(m.nextId, c, pending) && Distinct(m.offers) && Distinct(c.posted)
  {
  }

  lemma CoherentFrom(owner: string, m: Market, c: Cache, pending: map<nat, Order>)
    requires Valid(m) && OpenAgree(owner, m, c, pending) && SoldAgree(owner, m.trades, c)
    requires IdsAgree(m.nextId, c, pending)
    ensures Coherent(owner, m, c, pending)
  {
  }

  lemma DroppedKeepsRest(owner: string, m: Market, m': Market, c: Cache, c': Cache, pending: map<nat, Order>, id: nat)
    requires SoldAgree(owner, m.trades, c) && m'.trades == m.trades && c'.sold == c.sold && c'.split == c.split
    requires IdsAgree(m.nextId, c, pending) && m'.nextId == m.nextId
    requires Distinct(c'.posted) && Dropped(c.posted, c'.posted, id)
    ensures SoldAgree(owner, m'.trades, c') && IdsAgree(m'.nextId, c', pending)
  {
    forall k: nat | Find(c'.posted, k).Some? || IsSold(c', k) ensures k < m'.nextId {
      assert IsSold(c', k) <==> IsSold(c, k);
    }
  }

  // An order cannot be deleted: the market is closed, or the records call it sold.
  ghost predicate Stuck(m: Market, c: Cache, o: Order) {
    m.readonly || IsSold(c, o.id)
  }

  // Deleting offers keeps the records right, also when it ends half-way; it does so exactly if one of
  // the offers is sold, or the market is closed and there is any.
  lemma {:induction false} WithdrawingAllKeeps(owner: string, m: Market, c: Cache, pending: map<nat, Order>,
                                               orders: Book)
    requires Coherent(owner, m, c, pending) && StillPosted(c, orders)
    ensures var (m', c', error) := WithdrawnAll(m, c, orders);
            && Coherent(owner, m', c', pending)
            && (error.Some? <==> exists o :: o in orders && Stuck(m, c, o))
    decreases |orders|
  {
    hide Coherent, Removed;
    if orders != [] {
      var o, rest := orders[0], orders[1..];
      assert o in orders && orders == [o] + rest;
      DeletionOfPosted(owner, m, c, pending, o);
      var (m1, r) := DeleteOffer(m, o.id);
      if r.Ok? {
        WithdrawnFromBoth(owner, m, c, pending, o.id);
        var c1 := Removed(c, o.id);
        RestStaysPosted(owner, m, c, pending, orders);
        WithdrawingAllKeeps(owner, m1, c1, pending, rest);
        assert forall x :: Stuck(m1, c1, x) <==> Stuck(m, c, x);
      } else {
        assert Stuck(m, c, o);
      }
    }
  }

  lemma DeletionOfPosted(owner: string, m: Market, c: Cache, pending: map<nat, Order>, o: Order)
    requires Coherent(owner, m, c, pending) && Find(c.posted, o.id).Some?
    ensures DeleteOffer(m, o.id).1.Err? <==> Stuck(m, c, o)
    ensures DeleteOffer(m, o.id).0.readonly == m.readonly && Removed(c, o.id).sold == c.sold
  {
    hide Valid, SoldAgree, IdsAgree;
  }

  lemma RestStaysPosted(owner: string, m: Market, c: Cache, pending: map<nat, Order>, orders: Book)
    requires Coherent(owner, m, c, pending) && StillPosted(c, orders) && orders != []
    requires DeleteOffer(m, orders[0].id).1.Ok?
    ensures StillPosted(Removed(c, orders[0].id), orders[1..])
  {
    hide Valid, SoldAgree, IdsAgree;
    var id := orders[0].id;
    NotSoldWhenOpen(owner, m, c, pending, id);
    AfterPop(c.posted, id);
    DistinctTail(orders);
    forall o | o in orders[1..] ensures o in orders && o.id != id {}
  }

  // A posting that replaces the slot's offers.
  lemma ClearingKeepsIff(owner: string, m: Market, c: Cache, pending: map<nat, Order>, replaceExisting: bool,
                         timeSlot: int)
    requires Coherent(owner, m, c, pending)
    ensures var (m', c', error) := Cleared(m, c, replaceExisting, timeSlot);
            && Coherent(owner, m', c', pending)
            && (error.Some? <==>
                  replaceExisting && exists o :: o in c.posted && o.timeSlot == timeSlot && Stuck(m, c, o))
  {
    hide Coherent, Stuck, Find;
    CoherentParts(owner, m, c, pending);
    PostedInDistinct(c.posted, timeSlot);
    PostedInIsPosted(c, timeSlot);
    if replaceExisting {
      WithdrawingAllKeeps(owner, m, c, pending, PostedIn(c.posted, timeSlot));
    }
  }

  // It raises exactly if a sold offer of the slot is still posted, the market is closed, or it refuses
  // the new offer; the records are right in any case, once the new offer is recorded.
  lemma ReplacingKeepsIff(cfg: Config, m: Market, c: Cache, pending: map<nat, Order>, me: Trader, price: real,
                          energy: real, originalPrice: Option<real>, replaceExisting: bool, timeSlot: int)
    requires Coherent(me.name, m, c, pending)
    ensures var (m', c', r) := PostedOne(cfg, m, c, me, price, energy, originalPrice, replaceExisting, timeSlot);
            && Coherent(me.name, m', c', pending)
            && var original := if originalPrice.Some? then originalPrice.value else price;
            && (r.Err? <==>
                || m.readonly || energy < TOL || OfferPriceWithFee(cfg.fee, price, original, energy) < 0.0
                || (replaceExisting && exists o :: o in c.posted && o.timeSlot == timeSlot && IsSold(c, o.id)))
  {
    hide Coherent, OfferPriceWithFee, IsSold, WithdrawnAll;
    ClearingKeepsIff(me.name, m, c, pending, replaceExisting, timeSlot);
    ReadonlyStays(m, c, if replaceExisting then PostedIn(c.posted, timeSlot) else []);
    var (m1, c1, error) := Cleared(m, c, replaceExisting, timeSlot);
    if error.None? {
      hide Coherent, OfferPriceWithFee, Cleared;
      PostedIsAwaited(cfg, me.name, m1, c1, pending, price, energy, me, originalPrice, timeSlot);
      var (m2, r) := PostOffer(cfg, m1, price, energy, me, None, originalPrice, true, true, timeSlot);
      if r.Ok? {
        var later := pending[r.value.id := r.value];
        NewIdWaits(me.name, m1, c1, pending);
        RecordingKeeps(me.name, m2, c1, later, r.value.id);
        assert later - {r.value.id} == pending;
      }
    }
  }

  lemma {:induction false} ReadonlyStays(m: Market, c: Cache, orders: Book)
    ensures WithdrawnAll(m, c, orders).0.readonly == m.readonly
    decreases |orders|
  {
    if orders != [] {
      ReadonlyStays(DeleteOffer(m, orders[0].id).0, Removed(c, orders[0].id), orders[1..]);
    }
  }

  lemma NewIdWaits(owner: string, m: Market, c: Cache, pending: map<nat, Order>)
    requires Coherent(owner, m, c, pending)
    ensures m.nextId !in pending
  {
  }

  lemma NotSoldWhenOpen(owner: string, m: Market, c: Cache, pending: map<nat, Order>, id: nat)
    requires OpenAgree(owner, m, c, pending) && Find(m.offers, id).Some?
    ensures !IsSold(c, id)
  {
  }

  // ----- re-pricing -----

  // The market takes an offer that is re-priced at this rate, fees included.
  predicate RateIsAccepted(fee: FeeClass, rate: real) {
    IncomingOfferRate(fee, rate, rate) >= 0.0
  }

  // An offer the records call open although the market does not have it.
  ghost predicate Stale(m: Market, c: Cache, id: nat) {
    IsOpen(c, id) && Find(m.offers, id).None? && id < m.nextId
  }

  // The market and the records after one offer was replaced by another.
  ghost predicate Swapped(b: Book, b': Book, id: nat, new_: Order) {
    forall k :: Find(b', k) == if k == new_.id then Some(new_) else if k == id then None else Find(b, k)
  }

  lemma SwappedKeepsOpen(owner: string, m: Market, m': Market, c: Cache, c': Cache, pending: map<nat, Order>, id: nat,
                         new_: Order)
    requires OpenAgree(owner, m, c, pending) && IdsAgree(m.nextId, c, pending) && Find(c.posted, id).Some?
    requires Swapped(m.offers, m'.offers, id, new_) && Swapped(c.posted, c'.posted, id, new_)
    requires c'.sold == c.sold && c'.split == c.split && new_.id == m.nextId && new_.trader.name == owner
    ensures OpenAgree(owner, m', c', pending)
  {
    forall k: nat ensures OwnOpen(m', owner, k) <==> IsOpen(c', k) || Awaited(c', pending, k) {
      assert OwnOpen(m, owner, k) <==> IsOpen(c, k) || Awaited(c, pending, k);
    }
  }

  lemma SwappedBook(b: Book, id: nat, new_: Order)
    requires Distinct(b) && new_.id != id
    ensures Distinct(Put(Pop(b, id), new_)) && Swapped(b, Put(Pop(b, id), new_), id, new_)
  {
    AfterPop(b, id);
    AfterPut(Pop(b, id), new_);
  }

  // What an update does when it gets as far as re-posting.
  lemma UpdateThatReposts(cfg: Config, m: Market, c: Cache, me: Trader, o: Order, rate: real)
    requires Valid(m) && !m.readonly && Find(m.offers, o.id) == Some(o) && NeedsUpdate(o, rate)
    ensures var (m', c') := Updated(cfg, m, c, me, o, rate);
            var m1 := m.(offers := Pop(m.offers, o.id), events := m.events + [OfferDeleted(o)]);
            var r := Reposted(cfg, m1, me, o, PriceAt(o, rate)).1;
            && Valid(m') && o.energy >= TOL && o.id < m.nextId
            && (r.Ok? <==> RateIsAccepted(cfg.fee, rate))
            && (r.Ok? ==> r.value.id == m.nextId && r.value.trader.name == me.name && c' == Replaced(c, o, r.value) &&
                          m'.offers == Put(Pop(m.offers, o.id), r.value) && m'.nextId == m.nextId + 1)
            && (r.Err? ==> c' == c && m'.offers == Pop(m.offers, o.id) && m'.nextId == m.nextId)
            && m'.trades == m.trades && m'.readonly == m.readonly
  {
    var m1 := DeleteOffer(m, o.id).0;
    ValidAfterDeleting(m, o.id);
    ValidAfterPostOffer(cfg, m1, PriceAt(o, rate), o.energy, me.(originUuid := o.trader.originUuid),
                        Some(PriceAt(o, rate)), true, true, o.timeSlot);
    hide OfferPriceWithFee, PriceAt;
  }

  // Updating one posted offer keeps the records right exactly if there is nothing to update or the
  // market accepts the rate. If it does not, the offer is gone from the market only.
  lemma UpdateKeepsIff(cfg: Config, m: Market, c: Cache, pending: map<nat, Order>, me: Trader, o: Order, rate: real)
    requires Coherent(me.name, m, c, pending) && !m.readonly && Find(c.posted, o.id) == Some(o)
    ensures var (m', c') := Updated(cfg, m, c, me, o, rate);
            && m'.readonly == m.readonly && m'.nextId >= m.nextId
            && (Coherent(me.name, m', c', pending) <==>
                  !NeedsUpdate(o, rate) || IsSold(c, o.id) || RateIsAccepted(cfg.fee, rate))
            && (!Coherent(me.name, m', c', pending) ==> Stale(m', c', o.id))
  {
    var (m', c') := Updated(cfg, m, c, me, o, rate);
    if NeedsUpdate(o, rate) {
      if IsSold(c, o.id) {
        assert m' == m && c' == c;
      } else {
        assert Find(m.offers, o.id) == Some(o);
        UpdateThatReposts(cfg, m, c, me, o, rate);
        DistinctOffers(m);
        AfterPop(m.offers, o.id);
        if RateIsAccepted(cfg.fee, rate) {
          hide Updated, OpenAgree;
          var new_ := Find(m'.offers, m.nextId);
          RepostedRecords(cfg, m, m', c, c', pending, me, o, rate);
        } else {
          assert Stale(m', c', o.id);
        }
      }
    }
  }

  lemma RepostedRecords(cfg: Config, m: Market, m': Market, c: Cache, c': Cache, pending: map<nat, Order>, me: Trader,
                        o: Order, rate: real)
    requires Coherent(me.name, m, c, pending) && Valid(m') && Find(c.posted, o.id) == Some(o) && !IsSold(c, o.id)
    requires var m1 := m.(offers := Pop(m.offers, o.id), events := m.events + [OfferDeleted(o)]);
             var r := Reposted(cfg, m1, me, o, PriceAt(o, rate)).1;
             r.Ok? && r.value.id == m.nextId && r.value.trader.name == me.name && c' == Replaced(c, o, r.value) &&
             m'.offers == Put(Pop(m.offers, o.id), r.value) && m'.nextId == m.nextId + 1
    requires m'.trades == m.trades && o.id < m.nextId
    ensures Coherent(me.name, m', c', pending)
  {
    hide Coherent, Valid, Reposted, OpenAgree, SoldAgree, IdsAgree, PriceAt;
    var m1 := m.(offers := Pop(m.offers, o.id), events := m.events + [OfferDeleted(o)]);
    var new_ := Reposted(cfg, m1, me, o, PriceAt(o, rate)).1.value;
    CoherentParts(me.name, m, c, pending);
    SwappedBook(m.offers, o.id, new_);
    SwappedBook(c.posted, o.id, new_);
    NewIdIsNotSplit(m.nextId, c, pending);
    SwappedKeepsOpen(me.name, m, m', c, c', pending, o.id, new_);
    SwappedKeepsRest(me.name, m, m', c, c', pending, o.id, new_);
    CoherentFrom(me.name, m', c', pending);
  }

  lemma NewIdIsNotSplit(nextId: nat, c: Cache, pending: map<nat, Order>)
    requires IdsAgree(nextId, c, pending)
    ensures nextId !in c.split
  {
  }

  lemma SwappedKeepsRest(owner: string, m: Market, m': Market, c: Cache, c': Cache, pending: map<nat, Order>, id: nat,
                         new_: Order)
    requires SoldAgree(owner, m.trades, c) && m'.trades == m.trades && c'.sold == c.sold && c'.split == c.split
    requires IdsAgree(m.nextId, c, pending) && m'.nextId == m.nextId + 1 && new_.id == m.nextId
    requires Distinct(c'.posted) && Swapped(c.posted, c'.posted, id, new_)
    ensures SoldAgree(owner, m'.trades, c') && IdsAgree(m'.nextId, c', pending)
  {
    forall k: nat | Find(c'.posted, k).Some? || IsSold(c', k) ensures k < m'.nextId {
      assert IsSold(c', k) <==> IsSold(c, k);
    }
  }

  // Once stale, an offer stays stale, whatever else is updated.
  lemma StaleStays(cfg: Config, m: Market, c: Cache, me: Trader, o: Order, rate: real, id: nat)
    requires Valid(m) && Stale(m, c, id) && Distinct(c.posted) && Find(c.posted, o.id) == Some(o)
    ensures var (m', c') := Updated(cfg, m, c, me, o, rate);
            Valid(m') && Stale(m', c', id)
  {
    UpdateTouchesOne(cfg, m, c, me, o, rate);
    ValidAfterDeleting(m, o.id);
    var m1 := DeleteOffer(m, o.id).0;
    ValidAfterPostOffer(cfg, m1, PriceAt(o, rate), o.energy, me.(originUuid := o.trader.originUuid),
                        Some(PriceAt(o, rate)), true, true, o.timeSlot);
    hide OfferPriceWithFee, PriceAt;
    var r := Reposted(cfg, m1, me, o, PriceAt(o, rate)).1;
    DistinctOffers(m);
    AfterPop(m.offers, o.id);
    if r.Ok? {
      AfterPut(m1.offers, r.value);
    }
  }

  // The offers of the snapshot that the loop has yet to look at are posted as they were.
  ghost predicate StillPosted(c: Cache, orders: Book) {
    Distinct(c.posted) && Distinct(orders) && forall o :: o in orders ==> Find(c.posted, o.id) == Some(o)
  }

  lemma StillPostedAfterUpdate(cfg: Config, m: Market, c: Cache, me: Trader, orders: Book, rate: real)
    requires StillPosted(c, orders) && orders != []
    requires forall o :: o in orders ==> o.id < m.nextId
    ensures StillPosted(Updated(cfg, m, c, me, orders[0], rate).1, orders[1..]) && StillPosted(c, orders[1..])
  {
    hide Updated;
    UpdateTouchesOne(cfg, m, c, me, orders[0], rate);
    FindIn(orders[1..], orders[0].id);
    forall o | o in orders[1..] ensures o in orders && o.id != orders[0].id {}
  }

  lemma {:induction false} StaleThroughAll(cfg: Config, m: Market, c: Cache, me: Trader, orders: Book, rate: real,
                                           timeSlot: Option<int>, id: nat)
    requires Valid(m) && Stale(m, c, id) && StillPosted(c, orders)
    requires forall o :: o in orders ==> o.id < m.nextId
    ensures var (m', c') := UpdatedAll(cfg, m, c, me, orders, rate, timeSlot); Stale(m', c', id)
    decreases |orders|
  {
    hide Updated, Stale;
    if orders != [] {
      var (m1, c1) := Updated(cfg, m, c, me, orders[0], rate);
      StillPostedAfterUpdate(cfg, m, c, me, orders, rate);
      UpdateTouchesOne(cfg, m, c, me, orders[0], rate);
      if InSlot(orders[0], timeSlot) {
        StaleStays(cfg, m, c, me, orders[0], rate, id);
        StaleThroughAll(cfg, m1, c1, me, orders[1..], rate, timeSlot, id);
      } else {
        StaleThroughAll(cfg, m, c, me, orders[1..], rate, timeSlot, id);
      }
    }
  }

  // Every open offer of the slot that needs the update can be re-posted.
  ghost predicate UpdateIsSafe(fee: FeeClass, c: Cache, orders: Book, rate: real, timeSlot: Option<int>) {
    RateIsAccepted(fee, rate) ||
    forall o :: o in orders && InSlot(o, timeSlot) && NeedsUpdate(o, rate) ==> IsSold(c, o.id)
  }

  lemma AllPosted(owner: string, m: Market, c: Cache, pending: map<nat, Order>)
    requires Coherent(owner, m, c, pending)
    ensures StillPosted(c, c.posted)
  {
    forall o | o in c.posted ensures Find(c.posted, o.id) == Some(o) {
      InFind(c.posted, o);
    }
  }

  // Re-pricing keeps the records right if and only if the market accepts the rate or nothing open
  // has to be re-priced.
  lemma {:induction false} UpdatingAllKeepsIff(cfg: Config, m: Market, c: Cache, pending: map<nat, Order>, me: Trader,
                                               orders: Book, rate: real, timeSlot: Option<int>)
    requires Coherent(me.name, m, c, pending) && !m.readonly && StillPosted(c, orders)
    ensures var (m', c') := UpdatedAll(cfg, m, c, me, orders, rate, timeSlot);
            Coherent(me.name, m', c', pending) <==> UpdateIsSafe(cfg.fee, c, orders, rate, timeSlot)
    decreases |orders|
  {
    PostedIdsAreOld(me.name, m, c, pending, orders);
    hide Updated, Coherent, Stale, RateIsAccepted, NeedsUpdate;
    if orders != [] {
      var o, rest := orders[0], orders[1..];
      assert orders == [o] + rest;
      var (m1, c1) := Updated(cfg, m, c, me, o, rate);
      StillPostedAfterUpdate(cfg, m, c, me, orders, rate);
      UpdateTouchesOne(cfg, m, c, me, o, rate);
      UpdateKeepsIff(cfg, m, c, pending, me, o, rate);
      CoherentIsValid(me.name, m, c, pending);
      if !InSlot(o, timeSlot) {
        UpdatingAllKeepsIff(cfg, m, c, pending, me, rest, rate, timeSlot);
      } else if Coherent(me.name, m1, c1, pending) {
        UpdatingAllKeepsIff(cfg, m1, c1, pending, me, rest, rate, timeSlot);
      } else {
        UpdatedIsValid(cfg, m, c, me, o, rate);
        StaleThroughAll(cfg, m1, c1, me, rest, rate, timeSlot, o.id);
        var (m', c') := UpdatedAll(cfg, m1, c1, me, rest, rate, timeSlot);
      }
    }
  }

  lemma PostedIdsAreOld(owner: string, m: Market, c: Cache, pending: map<nat, Order>, orders: Book)
    requires Coherent(owner, m, c, pending) && StillPosted(c, orders)
    ensures forall o :: o in orders ==> o.id < m.nextId
  {
  }

  lemma UpdatedIsValid(cfg: Config, m: Market, c: Cache, me: Trader, o: Order, rate: real)
    requires Valid(m)
    ensures Valid(Updated(cfg, m, c, me, o, rate).0)
  {
    ValidAfterDeleting(m, o.id);
    ValidAfterPostOffer(cfg, DeleteOffer(m, o.id).0, PriceAt(o, rate), o.energy, me.(originUuid := o.trader.originUuid),
                        Some(PriceAt(o, rate)), true, true, o.timeSlot);
    hide PriceAt, OfferPriceWithFee, Valid;
  }
}
