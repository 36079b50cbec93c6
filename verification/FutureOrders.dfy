/** The dictionary in which a future market keeps one side of its open orders. Beside the orders
    it keeps, for every delivery slot, the list of that slot's orders; the two are updated
    together and have to agree. */
module FutureOrders {
  import opened Numeric
  import opened Books

  datatype Indexed = Indexed(data: Book, slots: map<int, Book>)

  // The orders delivered in one of the given slots, in their order.
  ghost function Only(b: Book, keep: iset<int>): Book {
    if b == [] then []
    else (if b[0].timeSlot in keep then [b[0]] else []) + Only(b[1..], keep)
  }

  // Every slot list is the slot's part of the dictionary, order by order; so each open order is
  // in its own slot's list, once, and in no other.
  ghost predicate Coherent(x: Indexed) {
    && Distinct(x.data)
    && (forall s :: s in x.slots ==> x.slots[s] == Only(x.data, iset{s}))
    && (forall o :: o in x.data ==> o.timeSlot in x.slots)
  }

  // `list.remove`.
  function Without(b: Book, o: Order): Book {
    if b == [] then []
    else if b[0] == o then b[1..]
    else [b[0]] + Without(b[1..], o)
  }

  function WithItem(x: Indexed, o: Order): Indexed {
    var listed := if o.timeSlot in x.slots then x.slots[o.timeSlot] else [];
    Indexed(Put(x.data, o), x.slots[o.timeSlot := listed + [o]])
  }

  // `list.remove` raises when the list does not hold the order.
  predicate Removable(x: Indexed, id: nat) {
    var found := Find(x.data, id);
    found.Some? ==> found.value.timeSlot in x.slots && found.value in x.slots[found.value.timeSlot]
  }

  function Taken(x: Indexed, id: nat): Indexed
    requires Removable(x, id)
  {
    match Find(x.data, id)
    case None => x
    case Some(o) => Indexed(Pop(x.data, id), x.slots[o.timeSlot := Without(x.slots[o.timeSlot], o)])
  }

  class FutureOrders {
    var data: Book
    var slotOrderMapping: map<int, Book>

    function State(): Indexed
      reads this
    {
      Indexed(data, slotOrderMapping)
    }

    constructor ()
      ensures State() == Indexed([], map[]) && Coherent(State())
    {
      data, slotOrderMapping := [], map[];
    }

    method SetItem(order: Order)
      modifies this
      ensures State() == WithItem(old(State()), order)
    {
      data := Put(data, order);
      if order.timeSlot !in slotOrderMapping {
        slotOrderMapping := slotOrderMapping[order.timeSlot := []];
      }
      slotOrderMapping := slotOrderMapping[order.timeSlot := slotOrderMapping[order.timeSlot] + [order]];
    }

    method DelItem(id: nat)
      requires Find(data, id).Some? && Removable(State(), id)
      modifies this
      ensures State() == Taken(old(State()), id)
    {
      var order := Find(data, id).value;
      slotOrderMapping := slotOrderMapping[order.timeSlot := Without(slotOrderMapping[order.timeSlot], order)];
      data := Books.Pop(data, id);
    }

    // The inherited `pop(id, None)`.
    method Pop(id: nat) returns (order: Option<Order>)
      requires Removable(State(), id)
      modifies this
      ensures order == Find(old(data), id) && State() == Taken(old(State()), id)
    {
      order := Find(data, id);
      if order.Some? {
        DelItem(id);
      }
    }
  }

  // ----- parts of a book -----

  lemma {:induction false} OnlyAppend(b: Book, c: Book, keep: iset<int>)
    ensures Only(b + c, keep) == Only(b, keep) + Only(c, keep)
  {
    if b == [] {
      assert b + c == c;
    } else {
      assert (b + c)[1..] == b[1..] + c;
      OnlyAppend(b[1..], c, keep);
      Regroup(if b[0].timeSlot in keep then [b[0]] else [], Only(b[1..], keep), Only(c, keep));
    }
  }

  lemma {:induction false} OnlyIn(b: Book, keep: iset<int>)
    ensures forall o :: o in Only(b, keep) <==> o in b && o.timeSlot in keep
  {
    if b != [] {
      OnlyIn(b[1..], keep);
      assert b == [b[0]] + b[1..];
    }
  }

  lemma {:induction false} OnlyDistinct(b: Book, keep: iset<int>)
    requires Distinct(b)
    ensures Distinct(Only(b, keep))
    ensures forall id :: Find(Only(b, keep), id) ==
                         if Find(b, id).Some? && Find(b, id).value.timeSlot in keep then Find(b, id) else None
  {
    if b != [] {
      var rest := Only(b[1..], keep);
      OnlyDistinct(b[1..], keep);
      if b[0].timeSlot in keep {
        assert ([b[0]] + rest)[1..] == rest;
      } else {
        assert [] + rest == rest;
      }
    }
  }

  lemma {:induction false} OnlyTwice(b: Book, first: iset<int>, second: iset<int>)
    ensures Only(Only(b, first), second) == Only(b, first * second)
  {
    if b != [] {
      OnlyTwice(b[1..], first, second);
      var head := if b[0].timeSlot in first then [b[0]] else [];
      OnlyAppend(head, Only(b[1..], first), second);
    }
  }

  lemma {:induction false} OnlySame(b: Book, keep: iset<int>, other: iset<int>)
    requires forall o :: o in b ==> (o.timeSlot in keep <==> o.timeSlot in other)
    ensures Only(b, keep) == Only(b, other)
  {
    if b != [] {
      assert b[0] in b;
      OnlySame(b[1..], keep, other);
    }
  }

  lemma {:induction false} OnlyWhole(b: Book, keep: iset<int>)
    requires forall o :: o in b ==> o.timeSlot in keep
    ensures Only(b, keep) == b
  {
    if b != [] {
      assert b[0] in b;
      OnlyWhole(b[1..], keep);
      assert b == [b[0]] + b[1..];
    }
  }

  lemma {:induction false} OnlyNothing(b: Book, keep: iset<int>)
    requires forall o :: o in b ==> o.timeSlot !in keep
    ensures Only(b, keep) == []
  {
    if b != [] {
      assert b[0] in b;
      OnlyNothing(b[1..], keep);
    }
  }

  lemma {:induction false} OnlyPop(b: Book, id: nat, keep: iset<int>)
    ensures Only(Pop(b, id), keep) == Pop(Only(b, keep), id)
  {
    if b != [] {
      OnlyPop(b[1..], id, keep);
      var head := if b[0].timeSlot in keep then [b[0]] else [];
      PopAppend(head, Only(b[1..], keep), id);
      if b[0].timeSlot in keep {
        assert [b[0]][1..] == [];
      }
      if b[0].id != id {
        assert ([b[0]] + Pop(b[1..], id))[1..] == Pop(b[1..], id);
      }
    }
  }

  lemma {:induction false} WithoutIsPop(b: Book, o: Order)
    requires Distinct(b) && o in b
    ensures Without(b, o) == Pop(b, o.id)
  {
    if b[0] == o {
      PopAbsent(b[1..], o.id);
    } else {
      assert o in b[1..];
      FindIn(b[1..], b[0].id);
      WithoutIsPop(b[1..], o);
    }
  }

  // ----- both updates keep the agreement -----

  // Removing an order never fails and keeps the lists right, its own and every other.
  lemma TakingKeepsCoherence(x: Indexed, id: nat)
    requires Coherent(x)
    ensures Removable(x, id) && Coherent(Taken(x, id)) && Taken(x, id).slots.Keys == x.slots.Keys
    ensures Taken(x, id).data == Pop(x.data, id)
  {
    FindIn(x.data, id);
    PopWhenAbsent(x.data, id);
    if Find(x.data, id).Some? {
      var o := Find(x.data, id).value;
      var own := iset{o.timeSlot};
      OnlyIn(x.data, own);
      OnlyDistinct(x.data, own);
      WithoutIsPop(Only(x.data, own), o);
      AfterPop(x.data, id);
      var y := Taken(x, id);
      forall s | s in y.slots ensures y.slots[s] == Only(y.data, iset{s}) {
        OnlyPop(x.data, id, iset{s});
        if s != o.timeSlot {
          OnlyIn(x.data, iset{s});
          OnlyDistinct(x.data, iset{s});
          PopAbsent(Only(x.data, iset{s}), id);
        }
      }
    }
  }

  lemma PopWhenAbsent(b: Book, id: nat)
    ensures Find(b, id).None? ==> Pop(b, id) == b
  {
    if Find(b, id).None? {
      PopAbsent(b, id);
    }
  }

  // Assigning an order keeps the agreement if and only if its id was not in use: the dictionary
  // replaces, but the slot list grows.
  lemma AssigningKeepsCoherenceIff(x: Indexed, o: Order)
    requires Coherent(x)
    ensures Coherent(WithItem(x, o)) <==> Find(x.data, o.id).None?
    ensures o.timeSlot in x.slots ==> WithItem(x, o).slots.Keys == x.slots.Keys
  {
    if Find(x.data, o.id).None? {
      AssigningFreshKeeps(x, o);
    } else {
      AssigningAgainBreaks(x, o);
    }
  }

  lemma AssigningFreshKeeps(x: Indexed, o: Order)
    requires Coherent(x) && Find(x.data, o.id).None?
    ensures Coherent(WithItem(x, o))
  {
    PutFresh(x.data, o);
    AfterAppend(x.data, o);
    var y := WithItem(x, o);
    forall s | s in y.slots ensures y.slots[s] == Only(y.data, iset{s}) {
      OnlyAppend(x.data, [o], iset{s});
      if s !in x.slots {
        OnlyNothing(x.data, iset{s});
      }
    }
  }

  lemma {:induction false} OnlyPut(b: Book, o: Order, was: Order, keep: iset<int>)
    requires Distinct(b) && Find(b, o.id) == Some(was)
    ensures o.timeSlot in keep && was.timeSlot in keep ==> |Only(Put(b, o), keep)| == |Only(b, keep)|
    ensures o in Put(b, o) && (was != o ==> was !in Put(b, o))
  {
    FindIn(b[1..], o.id);
    if b[0].id == o.id {
      assert ([o] + b[1..])[1..] == b[1..];
    } else {
      assert ([b[0]] + Put(b[1..], o))[1..] == Put(b[1..], o);
      OnlyPut(b[1..], o, was, keep);
      assert Put(b, o) == [b[0]] + Put(b[1..], o);
    }
  }

  lemma AssigningAgainBreaks(x: Indexed, o: Order)
    requires Coherent(x) && Find(x.data, o.id).Some?
    ensures !Coherent(WithItem(x, o))
  {
    var was := Find(x.data, o.id).value;
    var y := WithItem(x, o);
    FindIn(x.data, o.id);
    OnlyPut(x.data, o, was, iset{was.timeSlot});
    if was.timeSlot != o.timeSlot {
      OnlyIn(x.data, iset{was.timeSlot});
      OnlyIn(y.data, iset{was.timeSlot});
      assert was in y.slots[was.timeSlot];
    } else {
      assert |y.slots[o.timeSlot]| == |Only(x.data, iset{o.timeSlot})| + 1;
    }
  }

  // What is left of a side when only some slots are kept.
  ghost function Kept(x: Indexed, keep: iset<int>): Indexed {
    Indexed(Only(x.data, keep), map s | s in x.slots && s in keep :: x.slots[s])
  }

  lemma KeepingKeepsCoherence(x: Indexed, keep: iset<int>)
    requires Coherent(x)
    ensures Coherent(Kept(x, keep))
  {
    OnlyDistinct(x.data, keep);
    OnlyIn(x.data, keep);
    var y := Kept(x, keep);
    forall s | s in y.slots ensures y.slots[s] == Only(y.data, iset{s}) {
      OnlyTwice(x.data, keep, iset{s});
      assert keep * iset{s} == iset{s};
    }
  }
}
