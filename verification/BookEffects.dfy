/** What each command does to the queue of a side: its makers best price first, first come first in a price. */
module BookEffects {
  import opened OrderBook
  import opened SweepShape
  import opened BookInvariants

  /** The order in which makers of a side are served. */
  function Queue(s: State, side: Side): seq<Resting> {
    Flatten(s.book.On(side))
  }

  /** A side without empty levels is determined by its queue. */
  lemma {:induction false} QueueDeterminesLevels(a: seq<Level>, b: seq<Level>, side: Side)
    requires SideOk(a, side) && SideOk(b, side) && Flatten(a) == Flatten(b)
    ensures a == b
  {
    SomeQueue(a);
    SomeQueue(b);
    if a != [] && b != [] {
      FirstLevel(a, side);
      FirstLevel(b, side);
      assert Flatten(a)[0] == a[0].orders[0] && Flatten(b)[0] == b[0].orders[0];
      assert |a[0].orders| == |b[0].orders|;
      assert a[0].orders == Flatten(a)[..|a[0].orders|];
      assert b[0].orders == Flatten(b)[..|b[0].orders|];
      assert Flatten(a[1..]) == Flatten(a)[|a[0].orders|..];
      assert Flatten(b[1..]) == Flatten(b)[|b[0].orders|..];
      QueueDeterminesLevels(a[1..], b[1..], side);
    }
  }

  lemma {:induction false} SomeQueue(levels: seq<Level>)
    requires NoEmptyLevel(levels)
    ensures Flatten(levels) == [] <==> levels == []
  {
  }

  /** The first level ends where the queue's price first changes. */
  lemma {:induction false} FirstLevel(levels: seq<Level>, side: Side)
    requires SideOk(levels, side) && levels != []
    ensures var q, n := Flatten(levels), |levels[0].orders|;
      && n <= |q| && (forall i :: 0 <= i < n ==> q[i].price == levels[0].price)
      && (n < |q| ==> q[n].price != levels[0].price)
  {
    var n := |levels[0].orders|;
    if n < |Flatten(levels)| {
      SomeQueue(levels[1..]);
      assert Flatten(levels) == levels[0].orders + Flatten(levels[1..]);
      assert Flatten(levels)[n] == Flatten(levels[1..])[0] == levels[1].orders[0];
    }
  }

  lemma {:induction false} WithoutConcat(a: seq<Resting>, b: seq<Resting>, id: nat)
    ensures Without(a + b, id) == Without(a, id) + Without(b, id)
  {
    if a == [] {
      assert a + b == b;
    } else {
      assert (a + b)[1..] == a[1..] + b;
      WithoutConcat(a[1..], b, id);
    }
  }

  lemma {:induction false} PruneQueue(levels: seq<Level>, id: nat)
    ensures Flatten(Prune(levels, id)) == Without(Flatten(levels), id)
  {
    if levels != [] {
      WithoutConcat(levels[0].orders, Flatten(levels[1..]), id);
      PruneQueue(levels[1..], id);
    }
  }

  lemma {:induction false} WithoutTheOne(orders: seq<Resting>, id: nat) returns (j: nat)
    requires Count(orders, id) == 1
    ensures j < |orders| && orders[j].id == id
    ensures Without(orders, id) == orders[..j] + orders[j + 1..]
    ensures forall i :: 0 <= i < |orders| && i != j ==> orders[i].id != id
  {
    if orders[0].id == id {
      j := 0;
      WithoutNone(orders[1..], id);
    } else {
      j := WithoutTheOne(orders[1..], id);
      j := j + 1;
      assert orders[..j] == [orders[0]] + orders[1..][..j - 1];
    }
  }

  lemma {:induction false} SetQuantityQueue(levels: seq<Level>, id: nat, qty: nat)
    ensures Flatten(SetQuantity(levels, id, qty)) == Requantify(Flatten(levels), id, qty)
  {
    if levels != [] {
      assert SetQuantity(levels, id, qty)[1..] == SetQuantity(levels[1..], id, qty);
      SetQuantityQueue(levels[1..], id, qty);
    }
  }

  /** A cancel with the right side takes exactly the named order out of its queue; any other cancel
      changes nothing. */
  lemma {:induction false} CancelTakesOneOut(s: State, id: nat, side: Side) returns (j: nat)
    requires Good(s.book)
    ensures var q, after := Queue(s, side), Step(s, Cancel(id, side));
      if Find(s.book, id).Some? && Find(s.book, id).value.side == side then
        && j < |q| && q[j] == Find(s.book, id).value
        && Queue(after, side) == q[..j] + q[j + 1..]
        && Queue(after, side.Opposite()) == Queue(s, side.Opposite())
        && after.trades == s.trades
      else after == s
  {
    hide Prune, Flatten, Find, Good;
    j := 0;
    if Find(s.book, id).Some? && Find(s.book, id).value.side == side {
      var o := Find(s.book, id).value;
      FoundOnItsSide(s.book, id);
      FlattenCount(s.book.On(side), id);
      PruneQueue(s.book.On(side), id);
      j := WithoutTheOne(Queue(s, side), id);
    }
  }

  /** An amend at the same price changes one quantity and no place in the queue; a repricing amend is
      a cancel followed by a new order; an amend of an unknown id or of the other side does nothing. */
  lemma {:induction false} AmendInPlaceOrAnew(s: State, o: Resting) returns (j: nat)
    requires Good(s.book)
    ensures var q, after, was := Queue(s, o.side), Step(s, Amend(o)), Find(s.book, o.id);
      if was.None? || was.value.side != o.side then after == s
      else if was.value.price != o.price then after == Step(Step(s, Cancel(o.id, o.side)), New(o))
      else
        && j < |q| && q[j] == was.value
        && Queue(after, o.side) == q[j := q[j].(qty := o.qty)]
        && Queue(after, o.side.Opposite()) == Queue(s, o.side.Opposite())
        && after.trades == s.trades
  {
    hide SetQuantity, Flatten, Find, Good, HandleNew;
    j := 0;
    if Find(s.book, o.id).Some? && Find(s.book, o.id).value.side == o.side {
      FoundOnItsSide(s.book, o.id);
      FlattenCount(s.book.On(o.side), o.id);
      SetQuantityQueue(s.book.On(o.side), o.id, o.qty);
      j := WithoutTheOne(Queue(s, o.side), o.id);
    }
  }

  /** `o` stands at place `j` of `after`: behind all of its price or a better one, before all others. */
  ghost predicate StandsAt(q: seq<Resting>, after: seq<Resting>, o: Resting, j: nat) {
    && j <= |q| && after == q[..j] + [o] + q[j..]
    && (forall i :: 0 <= i < j ==> !Better(o.side, o.price, q[i].price))
    && (forall i :: j <= i < |q| ==> Better(o.side, o.price, q[i].price))
  }

  lemma {:induction false} StandsFurtherBack(front: seq<Resting>, q: seq<Resting>, after: seq<Resting>,
                                             o: Resting, j: nat)
    requires StandsAt(q, after, o, j)
    requires forall i :: 0 <= i < |front| ==> !Better(o.side, o.price, front[i].price)
    ensures StandsAt(front + q, front + after, o, |front| + j)
  {
    assert (front + q)[..|front| + j] == front + q[..j];
    assert (front + q)[|front| + j..] == q[j..];
  }

  lemma {:induction false} StandsInFront(q: seq<Resting>, o: Resting)
    requires forall i :: 0 <= i < |q| ==> Better(o.side, o.price, q[i].price)
    ensures StandsAt(q, [o] + q, o, 0)
  {
  }

  /** A resting order joins the queue at its place. */
  lemma {:induction false} RestQueue(levels: seq<Level>, o: Resting) returns (j: nat)
    requires SideOk(levels, o.side)
    ensures StandsAt(Flatten(levels), Flatten(Rest(levels, o)), o, j)
  {
    hide StandsAt;
    if levels == [] {
      j := 0;
      StandsInFront([], o);
      assert [o] + [] == [o];
    } else {
      var front, behind := levels[0].orders, levels[1..];
      assert SideOk(behind, o.side);
      if levels[0].price == o.price {
        BehindIsWorse(behind, o.side, o.price);
        StandsInFront(Flatten(behind), o);
        StandsFurtherBack(front, Flatten(behind), [o] + Flatten(behind), o, 0);
        j := |front|;
        assert front + [o] + Flatten(behind) == front + ([o] + Flatten(behind));
      } else if Better(o.side, o.price, levels[0].price) {
        BehindIsWorse(levels, o.side, o.price);
        StandsInFront(Flatten(levels), o);
        j := 0;
      } else {
        j := RestQueue(behind, o);
        StandsFurtherBack(front, Flatten(behind), Flatten(Rest(behind, o)), o, j);
        j := |front| + j;
      }
    }
  }

  lemma {:induction false} BehindIsWorse(levels: seq<Level>, side: Side, price: nat)
    requires AllPlaced(levels, side)
    requires forall i :: 0 <= i < |levels| ==> Better(side, price, levels[i].price)
    ensures forall i :: 0 <= i < |Flatten(levels)| ==> Better(side, price, Flatten(levels)[i].price)
  {
    if levels != [] {
      BehindIsWorse(levels[1..], side, price);
    }
  }

  /** A NEW serves the opposite queue and rests what is left of it, if its id is free, at its place in
      its own queue; the other makers of that queue stay as they are. */
  lemma {:induction false} NewServesThenRests(s: State, o: Resting) returns (k: nat, touched: bool, j: nat)
    requires Good(s.book)
    ensures var q, own := Queue(s, o.side.Opposite()), Queue(s, o.side);
      var levels, after := s.book.On(o.side.Opposite()), Step(s, New(o));
      var served := Served(q, CrossingCount(levels, o.side, o.price), o.qty, k, touched);
      && served.Some?
      && Queue(after, o.side.Opposite()) == served.value.rest
      && after.trades == s.trades + TradesOf(o, served.value.fills)
      && var swept := s.book.With(o.side.Opposite(), Sweep(levels, o.side, o.price, o.qty).levels);
         if served.value.qty == 0 || Find(swept, o.id).Some?
         then Queue(after, o.side) == own
         else StandsAt(own, Queue(after, o.side), o.(qty := served.value.qty), j)
  {
    hide Flatten, Find, Sweep, Rest, Served, CrossingCount;
    k, touched := SweepIsServed(s.book.On(o.side.Opposite()), o.side, o.price, o.qty);
    var left := Sweep(s.book.On(o.side.Opposite()), o.side, o.price, o.qty).qty;
    j := RestQueue(s.book.On(o.side), o.(qty := left));
  }
}
