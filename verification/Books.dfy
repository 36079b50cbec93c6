/** Orders and the insertion-ordered dictionaries `{order_id: order}` in which a market keeps
    its open offers and bids. A book is read through `Find`; `Pop` and `Put` are the dictionary's
    `pop(id, None)` and `d[order.id] = order`. */
module Books {
  import opened Numeric

  datatype Trader = Trader(name: string, uuid: string, originUuid: Option<string>)

  datatype Order = Order(
    id: nat, price: real, energy: real, originalPrice: real, trader: Trader, timeSlot: int)
  {
    function Rate(): real
      requires energy != 0.0
    {
      price / energy
    }

    function OriginalRate(): real
      requires energy != 0.0
    {
      originalPrice / energy
    }
  }

  type Book = seq<Order>

  function Find(b: Book, id: nat): Option<Order> {
    if b == [] then None
    else if b[0].id == id then Some(b[0])
    else Find(b[1..], id)
  }

  function Pop(b: Book, id: nat): Book {
    if b == [] then []
    else if b[0].id == id then Pop(b[1..], id)
    else [b[0]] + Pop(b[1..], id)
  }

  function Put(b: Book, o: Order): Book {
    if b == [] then [o]
    else if b[0].id == o.id then [o] + b[1..]
    else [b[0]] + Put(b[1..], o)
  }

  // The first open order, in insertion order, that stems from the given origin.
  function FindByOrigin(b: Book, origin: string): Option<Order> {
    if b == [] then None
    else if b[0].trader.originUuid == Some(origin) then Some(b[0])
    else FindByOrigin(b[1..], origin)
  }

  predicate InSlot(o: Order, timeSlot: Option<int>) {
    timeSlot.None? || o.timeSlot == timeSlot.value
  }

  // The price an order would have at the given rate.
  function PriceAt(o: Order, rate: real): real {
    o.energy * rate
  }

  function Energy(b: Book): real {
    if b == [] then 0.0 else b[0].energy + Energy(b[1..])
  }

  predicate Distinct(b: Book) {
    b == [] || (Find(b[1..], b[0].id).None? && Distinct(b[1..]))
  }

  // No two open orders share an origin, and every open order has one.
  ghost predicate UniqueOrigins(b: Book) {
    && (forall o :: o in b ==> o.trader.originUuid.Some?)
    && (forall o, p :: o in b && p in b && o.trader.originUuid == p.trader.originUuid ==> o == p)
  }

  lemma Regroup<T>(a: seq<T>, b: seq<T>, c: seq<T>)
    ensures (a + b) + c == a + (b + c)
  {
  }

  lemma {:induction false} FindIn(b: Book, id: nat)
    ensures Find(b, id).Some? ==> Find(b, id).value in b && Find(b, id).value.id == id
    ensures Find(b, id).None? ==> forall o :: o in b ==> o.id != id
  {
    if b != [] && b[0].id != id {
      FindIn(b[1..], id);
      assert b == [b[0]] + b[1..];
    }
  }

  lemma {:induction false} InFind(b: Book, o: Order)
    requires Distinct(b) && o in b
    ensures Find(b, o.id) == Some(o)
  {
    if b[0] != o {
      assert o in b[1..];
      InFind(b[1..], o);
      FindIn(b[1..], b[0].id);
    }
  }

  lemma {:induction false} AfterPop(b: Book, id: nat)
    requires Distinct(b)
    ensures Distinct(Pop(b, id))
    ensures forall k :: Find(Pop(b, id), k) == if k == id then None else Find(b, k)
    ensures forall o :: o in Pop(b, id) <==> o in b && o.id != id
    ensures Energy(Pop(b, id)) ==
            Energy(b) - (if Find(b, id).Some? then Find(b, id).value.energy else 0.0)
  {
    if b != [] {
      var t := b[1..];
      AfterPop(t, id);
      assert b == [b[0]] + t;
      if b[0].id == id {
        FindIn(t, id);
      } else {
        var r := [b[0]] + Pop(t, id);
        assert r[1..] == Pop(t, id);
      }
    }
  }

  lemma {:induction false} FoundAndGone(b: Book, id: nat)
    ensures Find(b, id).Some? ==> Find(b, id).value.id == id
    ensures Find(Pop(b, id), id).None?
    ensures Pop(Pop(b, id), id) == Pop(b, id)
  {
    if b != [] {
      FoundAndGone(b[1..], id);
      if b[0].id != id {
        assert ([b[0]] + Pop(b[1..], id))[1..] == Pop(b[1..], id);
      }
    }
  }

  lemma {:induction false} PopAbsent(b: Book, id: nat)
    requires Find(b, id).None?
    ensures Pop(b, id) == b
  {
    if b != [] {
      PopAbsent(b[1..], id);
      assert b == [b[0]] + b[1..];
    }
  }

  lemma {:induction false} PopAppend(b: Book, c: Book, id: nat)
    ensures Pop(b + c, id) == Pop(b, id) + Pop(c, id)
  {
    if b == [] {
      assert b + c == c;
    } else {
      assert (b + c)[1..] == b[1..] + c;
      PopAppend(b[1..], c, id);
    }
  }

  lemma {:induction false} PopMiddle(before: Book, o: Order, after: Book)
    requires Distinct(before + [o] + after)
    ensures Pop(before + [o] + after, o.id) == before + after
  {
    var b := before + [o] + after;
    if before == [] {
      assert b[1..] == after && [] + after == after;
      PopAbsent(after, o.id);
    } else {
      assert b[0] == before[0] && b[1..] == before[1..] + [o] + after;
      PopMiddle(before[1..], o, after);
      FindIn(b[1..], b[0].id);
      assert o in b[1..];
      assert [before[0]] + (before[1..] + after) == before + after;
    }
  }

  // A dictionary assignment under a fresh key appends.
  lemma {:induction false} PutFresh(b: Book, o: Order)
    requires Find(b, o.id).None?
    ensures Put(b, o) == b + [o]
  {
    if b != [] {
      PutFresh(b[1..], o);
      assert b == [b[0]] + b[1..];
    }
  }

  // A dictionary assignment under a key that sits in the middle replaces in place.
  lemma {:induction false} PutInPlace(b: Book, old_: Order, c: Book, o: Order)
    requires Find(b, o.id).None? && old_.id == o.id
    ensures Put(b + [old_] + c, o) == b + [o] + c
  {
    var d := b + [old_] + c;
    if b == [] {
      assert d[1..] == c;
    } else {
      assert d[1..] == b[1..] + [old_] + c;
      PutInPlace(b[1..], old_, c, o);
      assert b + [o] + c == [b[0]] + (b[1..] + [o] + c);
    }
  }

  lemma {:induction false} AfterAppend(b: Book, o: Order)
    requires Distinct(b) && Find(b, o.id).None?
    ensures Distinct(b + [o])
    ensures forall k :: Find(b + [o], k) == if k == o.id then Some(o) else Find(b, k)
    ensures Energy(b + [o]) == Energy(b) + o.energy
  {
    if b == [] {
      assert b + [o] == [o];
    } else {
      assert (b + [o])[1..] == b[1..] + [o];
      AfterAppend(b[1..], o);
    }
  }

  // The dictionary after both pieces of a split order were posted.
  lemma PutBothPieces(b: Book, accepted: Order, residual: Order)
    requires Distinct(b) && Find(b, residual.id).None? && accepted.id != residual.id
    ensures Put(Pop(b, accepted.id), accepted) == Pop(b, accepted.id) + [accepted]
    ensures Put(Pop(b, accepted.id) + [accepted], residual) == Pop(b, accepted.id) + [accepted, residual]
  {
    var rest := Pop(b, accepted.id);
    AfterPop(b, accepted.id);
    PutFresh(rest, accepted);
    AfterAppend(rest, accepted);
    PutFresh(rest + [accepted], residual);
    assert rest + [accepted] + [residual] == rest + [accepted, residual];
  }

  // The dictionary once the accepted piece has been taken out again.
  lemma PopAcceptedPiece(rest: Book, accepted: Order, residual: Order)
    requires Find(rest, accepted.id).None? && accepted.id != residual.id
    ensures Pop(rest + [accepted, residual], accepted.id) == rest + [residual]
  {
    PopAppend(rest, [accepted, residual], accepted.id);
    PopAbsent(rest, accepted.id);
    PopAbsent([residual], accepted.id);
    assert [accepted, residual][1..] == [residual];
  }

  // The dictionary once a failed acceptance has put the original back over the accepted piece.
  lemma RestoreBesideResidual(rest: Book, accepted: Order, residual: Order, original: Order)
    requires Find(rest, original.id).None? && accepted.id == original.id
    ensures Put(rest + [accepted, residual], original) == rest + [original, residual]
  {
    assert rest + [accepted, residual] == rest + [accepted] + [residual];
    PutInPlace(rest, accepted, [residual], original);
    assert rest + [original] + [residual] == rest + [original, residual];
  }

  // With distinct ids, a book whose orders all carry energy holds at least the energy of each.
  lemma {:induction false} EnergyNonNegative(b: Book)
    requires forall o :: o in b ==> o.energy >= 0.0
    ensures Energy(b) >= 0.0
  {
    if b != [] {
      EnergyNonNegative(b[1..]);
    }
  }

  lemma {:induction false} FindByOriginIn(b: Book, origin: string)
    ensures FindByOrigin(b, origin).Some? ==>
              FindByOrigin(b, origin).value in b &&
              FindByOrigin(b, origin).value.trader.originUuid == Some(origin)
    ensures FindByOrigin(b, origin).None? ==>
              forall o :: o in b ==> o.trader.originUuid != Some(origin)
  {
    if b != [] && b[0].trader.originUuid != Some(origin) {
      FindByOriginIn(b[1..], origin);
      assert b == [b[0]] + b[1..];
    }
  }
}
