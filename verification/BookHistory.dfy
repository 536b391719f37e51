/** Whole runs: queues stay in order of arrival, and the first order of a side has priority. */
module BookHistory {
  import opened Words
  import opened OrderBook
  import opened BookInvariants

  // ---- Where an id rests -------------------------------------------------------------------

  /** Everyone in `now` was already in `was`, at the same side and price. */
  ghost predicate ComesFrom(now: seq<Resting>, was: seq<Resting>) {
    forall y :: y in now ==> exists x :: x in was && SamePlace(x, y)
  }

  predicate SamePlace(x: Resting, y: Resting) {
    x.id == y.id && x.side == y.side && x.price == y.price
  }

  lemma {:induction false} ComesFromConcat(a: seq<Resting>, b: seq<Resting>, c: seq<Resting>, d: seq<Resting>)
    requires ComesFrom(a, c) && ComesFrom(b, d)
    ensures ComesFrom(a + b, c + d)
  {
    forall y | y in a + b ensures exists x :: x in c + d && SamePlace(x, y) {
      if y in a {
        var x :| x in c && SamePlace(x, y);
        assert x in c + d;
      } else {
        var x :| x in d && SamePlace(x, y);
        assert x in c + d;
      }
    }
  }

  lemma {:induction false} LeftoverComesFrom(was: seq<Resting>, now: seq<Resting>)
    requires Leftover(was, now)
    ensures ComesFrom(now, was)
  {
    forall y | y in now ensures exists x :: x in was && SamePlace(x, y) {
      var j :| 0 <= j < |now| && now[j] == y;
      assert SamePlace(was[|was| - |now| + j], y);
    }
  }

  lemma {:induction false} SweepComesFrom(levels: seq<Level>, taker: Side, limit: nat, qty: nat)
    ensures ComesFrom(Flatten(Sweep(levels, taker, limit, qty).levels), Flatten(levels))
  {
    if levels == [] || qty == 0 || !Crosses(taker, levels[0].price, limit) {
      forall y | y in Flatten(levels) ensures SamePlace(y, y) {}
    } else {
      var m := MatchList(levels[0].orders, qty);
      MatchListLeaves(levels[0].orders, qty);
      LeftoverComesFrom(levels[0].orders, m.rest);
      SweepComesFrom(levels[1..], taker, limit, m.qty);
      var tail := Sweep(levels[1..], taker, limit, m.qty).levels;
      ComesFromConcat(m.rest, Flatten(tail), levels[0].orders, Flatten(levels[1..]));
      assert Flatten(Sweep(levels, taker, limit, qty).levels) == m.rest + Flatten(tail);
    }
  }

  lemma {:induction false} SetQuantityComesFrom(levels: seq<Level>, id: nat, qty: nat)
    ensures ComesFrom(Flatten(SetQuantity(levels, id, qty)), Flatten(levels))
  {
    if levels != [] {
      var was, now := levels[0].orders, Requantify(levels[0].orders, id, qty);
      forall y | y in now ensures exists x :: x in was && SamePlace(x, y) {
        var j :| 0 <= j < |now| && now[j] == y;
        assert SamePlace(was[j], y);
      }
      SetQuantityComesFrom(levels[1..], id, qty);
      assert SetQuantity(levels, id, qty)[1..] == SetQuantity(levels[1..], id, qty);
      ComesFromConcat(now, Flatten(SetQuantity(levels[1..], id, qty)), was, Flatten(levels[1..]));
    }
  }

  lemma {:induction false} OnlyOne(orders: seq<Resting>, x: Resting, y: Resting)
    requires x in orders && y in orders && x.id == y.id && Count(orders, x.id) <= 1
    ensures x == y
  {
    if x != y {
      if orders[0] == x {
        CountMember(orders[1..], y);
      } else if orders[0] == y {
        CountMember(orders[1..], x);
      } else {
        OnlyOne(orders[1..], x, y);
      }
    }
  }

  /** In a good book the lookup returns the one order with the id. */
  lemma {:induction false} FindUnique(book: Book, o: Resting)
    requires Good(book) && o in Flatten(book.On(o.side))
    ensures Find(book, o.id) == Some(o)
  {
    var all := Flatten(book.bids) + Flatten(book.asks);
    FindInList(all, o.id);
    CountMember(all, o);
    CountConcat(Flatten(book.bids), Flatten(book.asks), o.id);
    FlattenCount(book.bids, o.id);
    FlattenCount(book.asks, o.id);
    assert BookCount(book, o.id) <= 1;
    OnlyOne(all, o, Find(book, o.id).value);
  }

  function Location(book: Book, id: nat): Option<(Side, nat)> {
    match Find(book, id)
    case None => None
    case Some(o) => Some((o.side, o.price))
  }

  /** If a side only lost orders, an id that still rests does so where it did. */
  lemma {:induction false} StaysPut(before: Book, after: Book, side: Side, id: nat)
    requires Good(before) && Good(after)
    requires after == before.With(side, after.On(side))
    requires ComesFrom(Flatten(after.On(side)), Flatten(before.On(side)))
    ensures Location(after, id).Some? ==> Location(after, id) == Location(before, id)
  {
    if Find(after, id).Some? {
      FoundOnItsSide(after, id);
      var y := Find(after, id).value;
      if y.side == side {
        var x :| x in Flatten(before.On(side)) && SamePlace(x, y);
        FindUnique(before, x);
      } else {
        FindUnique(before, y);
      }
    }
  }

  lemma {:induction false} RestMember(levels: seq<Level>, o: Resting)
    ensures o in Flatten(Rest(levels, o))
  {
    if levels == [] {
    } else if levels[0].price == o.price {
      assert o in levels[0].orders + [o];
    } else if Better(o.side, o.price, levels[0].price) {
    } else {
      RestMember(levels[1..], o);
    }
  }

  // ---- Order of arrival ----------------------------------------------------------------------

  /** The queue stands in rising order of these stamps. */
  ghost predicate QueueInOrder(orders: seq<Resting>, stamps: map<nat, nat>) {
    && (forall j :: 0 <= j < |orders| ==> orders[j].id in stamps)
    && (forall j, k :: 0 <= j < k < |orders| ==> stamps[orders[j].id] < stamps[orders[k].id])
  }

  ghost predicate SideInOrder(levels: seq<Level>, stamps: map<nat, nat>) {
    forall i :: 0 <= i < |levels| ==> QueueInOrder(levels[i].orders, stamps)
  }

  ghost predicate BookInOrder(book: Book, stamps: map<nat, nat>) {
    SideInOrder(book.bids, stamps) && SideInOrder(book.asks, stamps)
  }

  lemma {:induction false} SweepInOrder(levels: seq<Level>, taker: Side, limit: nat, qty: nat, stamps: map<nat, nat>)
    requires NoEmptyLevel(levels) && SideInOrder(levels, stamps)
    ensures SideInOrder(Sweep(levels, taker, limit, qty).levels, stamps)
  {
    hide Sweep;
    var now := Sweep(levels, taker, limit, qty).levels;
    var k := SweepLeaves(levels, taker, limit, qty);
    if now != [] {
      var was, rest := levels[k].orders, now[0].orders;
      var d := |was| - |rest|;
      assert QueueInOrder(was, stamps);
      forall j | 0 <= j < |rest| ensures rest[j].id == was[d + j].id {}
      assert QueueInOrder(rest, stamps);
      forall i | 0 < i < |now| ensures QueueInOrder(now[i].orders, stamps) {
        assert now[1..][i - 1] == levels[k + 1..][i - 1];
      }
    }
  }

  lemma {:induction false} WithoutInOrder(orders: seq<Resting>, id: nat, stamps: map<nat, nat>)
    requires QueueInOrder(orders, stamps)
    ensures QueueInOrder(Without(orders, id), stamps)
  {
    if orders != [] {
      var kept := Without(orders[1..], id);
      WithoutInOrder(orders[1..], id, stamps);
      WithoutKeeps(orders[1..], id);
      assert Without(orders, id) == if orders[0].id == id then kept else [orders[0]] + kept;
      hide Without;
      forall k | 0 <= k < |kept| ensures stamps[orders[0].id] < stamps[kept[k].id] {
        assert kept[k] in orders[1..];
      }
    }
  }

  lemma {:induction false} PruneInOrder(levels: seq<Level>, id: nat, stamps: map<nat, nat>)
    requires SideInOrder(levels, stamps)
    ensures SideInOrder(Prune(levels, id), stamps)
  {
    if levels != [] {
      WithoutInOrder(levels[0].orders, id, stamps);
      PruneInOrder(levels[1..], id, stamps);
    }
  }

  lemma {:induction false} SetQuantityInOrder(levels: seq<Level>, id: nat, qty: nat, stamps: map<nat, nat>)
    requires SideInOrder(levels, stamps)
    ensures SideInOrder(SetQuantity(levels, id, qty), stamps)
  {
    forall i | 0 <= i < |levels| ensures QueueInOrder(Requantify(levels[i].orders, id, qty), stamps) {
      assert QueueInOrder(levels[i].orders, stamps);
    }
  }

  /** A stamp for an id that does not rest here changes nothing. */
  lemma {:induction false} StampElsewhere(levels: seq<Level>, id: nat, n: nat, stamps: map<nat, nat>)
    requires SideInOrder(levels, stamps) && SideCount(levels, id) == 0
    ensures SideInOrder(levels, stamps[id := n])
  {
    if levels != [] {
      forall j | 0 <= j < |levels[0].orders| ensures levels[0].orders[j].id != id {
        if levels[0].orders[j].id == id {
          CountMember(levels[0].orders, levels[0].orders[j]);
        }
      }
      assert QueueInOrder(levels[0].orders, stamps);
      StampElsewhere(levels[1..], id, n, stamps);
      assert forall i :: 0 < i < |levels| ==> levels[i] == levels[1..][i - 1];
    }
  }

  /** The newest stamp goes to the back of its queue. */
  lemma {:induction false} RestInOrder(levels: seq<Level>, o: Resting, n: nat, stamps: map<nat, nat>)
    requires SideInOrder(levels, stamps) && SideCount(levels, o.id) == 0
    requires o.id in stamps && stamps[o.id] == n
    requires forall id :: id in stamps && id != o.id ==> stamps[id] < n
    ensures SideInOrder(Rest(levels, o), stamps)
  {
    assert QueueInOrder([o], stamps);
    if levels == [] {
    } else if levels[0].price == o.price {
      var queue := levels[0].orders;
      assert QueueInOrder(queue, stamps);
      forall j | 0 <= j < |queue| ensures stamps[queue[j].id] < n {
        if queue[j].id == o.id {
          CountMember(queue, queue[j]);
        }
      }
      assert QueueInOrder(queue + [o], stamps);
    } else if Better(o.side, o.price, levels[0].price) {
    } else {
      assert SideInOrder(levels[1..], stamps);
      RestInOrder(levels[1..], o, n, stamps);
      assert QueueInOrder(levels[0].orders, stamps);
    }
  }

  /** Does a NEW rest what matching leaves of it? */
  predicate Rests(book: Book, o: Resting) {
    var sw := Sweep(book.On(o.side.Opposite()), o.side, o.price, o.qty);
    sw.qty > 0 && Find(book.With(o.side.Opposite(), sw.levels), o.id).None?
  }

  /** The residual of a NEW is found under its id at its place; a NEW that does not rest leaves its
      id, if that rests at all, where it was. */
  lemma {:induction false} NewLocation(s: State, o: Resting)
    requires Good(s.book)
    ensures var after := HandleNew(s, o).book;
            if Rests(s.book, o) then
              var sw := Sweep(s.book.On(o.side.Opposite()), o.side, o.price, o.qty);
              && Find(after, o.id) == Some(o.(qty := sw.qty))
              && Location(s.book, o.id) != Some((o.side, o.price))
            else
              Location(after, o.id).Some? ==> Location(after, o.id) == Location(s.book, o.id)
  {
    var opp := o.side.Opposite();
    var sw := Sweep(s.book.On(opp), o.side, o.price, o.qty);
    var swept := s.book.With(opp, sw.levels);
    var after := HandleNew(s, o).book;
    SweptBookGood(s.book, o);
    SweepComesFrom(s.book.On(opp), o.side, o.price, o.qty);
    HandleNewGood(s, o);
    if Rests(s.book, o) {
      var left := o.(qty := sw.qty);
      RestMember(s.book.On(o.side), left);
      FindUnique(after, left);
      NotThereBefore(s.book, swept, o);
    } else {
      StaysPut(s.book, swept, opp, o.id);
    }
  }

  lemma {:induction false} NotThereBefore(before: Book, swept: Book, o: Resting)
    requires Good(before) && swept.On(o.side) == before.On(o.side) && Find(swept, o.id).None?
    ensures Location(before, o.id) != Some((o.side, o.price))
  {
    FindIsCount(swept, o.id);
    if Find(before, o.id).Some? {
      FoundOnItsSide(before, o.id);
    }
  }

  lemma {:induction false} NewInOrder(s: State, o: Resting, n: nat, stamps: map<nat, nat>)
    requires Good(s.book) && BookInOrder(s.book, stamps)
    requires forall id :: id in stamps ==> stamps[id] < n
    ensures BookInOrder(HandleNew(s, o).book, if Rests(s.book, o) then stamps[o.id := n] else stamps)
  {
    hide Sweep, Rest, Find;
    var opp := o.side.Opposite();
    var sw := Sweep(s.book.On(opp), o.side, o.price, o.qty);
    var swept := s.book.With(opp, sw.levels);
    SweepInOrder(s.book.On(opp), o.side, o.price, o.qty, stamps);
    if Rests(s.book, o) {
      FindIsCount(swept, o.id);
      StampElsewhere(swept.bids, o.id, n, stamps);
      StampElsewhere(swept.asks, o.id, n, stamps);
      RestInOrder(swept.On(o.side), o.(qty := sw.qty), n, stamps[o.id := n]);
    }
  }

  /** The command brings its order to a place where it did not rest before. */
  predicate Joins(s: State, c: Command) {
    var id := match c case New(o) => o.id case Amend(o) => o.id case Cancel(id, _) => id case Ignored => 0;
    var place := Location(Step(s, c).book, id);
    !c.Ignored? && place.Some? && place != Location(s.book, id)
  }

  /** When each id last joined a queue, as the number of the command that brought it there. */
  function Stamps(cs: seq<Command>): map<nat, nat> {
    if cs == [] then map[]
    else
      var before, c := cs[..|cs| - 1], cs[|cs| - 1];
      if Joins(Run(before), c) && (c.New? || c.Amend?)
      then Stamps(before)[c.order.id := |before|]
      else Stamps(before)
  }

  lemma {:induction false} RepriceInOrder(s: State, o: Resting, was: Resting, n: nat, stamps: map<nat, nat>)
    requires Good(s.book) && BookInOrder(s.book, stamps)
    requires Find(s.book, o.id) == Some(was) && was.side == o.side && was.price != o.price
    requires forall id :: id in stamps ==> stamps[id] < n
    ensures BookInOrder(Step(s, Amend(o)).book, if Joins(s, Amend(o)) then stamps[o.id := n] else stamps)
  {
    hide Sweep, Rest, Find, Prune, SetQuantity;
    FoundOnItsSide(s.book, o.id);
    var removed := s.(book := Remove(s.book, was));
    RemoveGood(s.book, was);
    PruneInOrder(s.book.On(o.side), o.id, stamps);
    PruneCount(s.book.On(o.side), o.id, o.id);
    FindIsCount(removed.book, o.id);
    assert Location(removed.book, o.id) == None;
    NewInOrder(removed, o, n, stamps);
    NewLocation(removed, o);
    assert Location(s.book, o.id) == Some((o.side, was.price));
  }

  lemma {:induction false} RequantifiedInOrder(s: State, o: Resting, was: Resting, stamps: map<nat, nat>)
    requires Good(s.book) && BookInOrder(s.book, stamps)
    requires Find(s.book, o.id) == Some(was) && was.side == o.side && was.price == o.price
    ensures BookInOrder(Step(s, Amend(o)).book, stamps) && !Joins(s, Amend(o))
  {
    hide Find, SetQuantity;
    var after := Step(s, Amend(o)).book;
    RequantifiedGood(s.book, o.side, o.id, o.qty);
    SetQuantityInOrder(s.book.On(o.side), o.id, o.qty, stamps);
    SetQuantityComesFrom(s.book.On(o.side), o.id, o.qty);
    StaysPut(s.book, after, o.side, o.id);
  }

  lemma {:induction false} StepInOrder(s: State, c: Command, n: nat, stamps: map<nat, nat>)
    requires Good(s.book) && BookInOrder(s.book, stamps)
    requires forall id :: id in stamps ==> stamps[id] < n
    ensures BookInOrder(Step(s, c).book,
                        if Joins(s, c) && (c.New? || c.Amend?) then stamps[c.order.id := n] else stamps)
  {
    hide Sweep, Rest, Find, Prune, SetQuantity;
    match c
    case New(o) =>
      NewInOrder(s, o, n, stamps);
      NewLocation(s, o);
    case Cancel(id, side) =>
      if Find(s.book, id).Some? {
        var o := Find(s.book, id).value;
        PruneInOrder(s.book.On(o.side), o.id, stamps);
      }
    case Amend(o) =>
      if Find(s.book, o.id).Some? {
        var was := Find(s.book, o.id).value;
        if was.side == o.side && was.price != o.price {
          RepriceInOrder(s, o, was, n, stamps);
        } else if was.side == o.side {
          RequantifiedInOrder(s, o, was, stamps);
        }
      }
    case Ignored =>
  }

  /** Time priority: in every reachable book each queue stands in the order in which its orders came
      to that price, an amend of the quantity alone not counting as coming. */
  lemma {:induction false} RunInOrder(cs: seq<Command>)
    ensures BookInOrder(Run(cs).book, Stamps(cs))
    ensures forall id :: id in Stamps(cs) ==> Stamps(cs)[id] < |cs|
  {
    if cs != [] {
      var before := cs[..|cs| - 1];
      RunInOrder(before);
      RunGood(before);
      StepInOrder(Run(before), cs[|cs| - 1], |before|, Stamps(before));
    }
  }

  /** The first order of a side has the best price of all orders there, and of those at that price
      it came first. */
  lemma {:induction false} BestHasPriority(cs: seq<Command>, side: Side, o: Resting)
    requires o in Flatten(Run(cs).book.On(side))
    ensures var levels := Run(cs).book.On(side);
            && levels != [] && levels[0].orders != []
            && var best := levels[0].orders[0];
               && !Better(side, o.price, best.price)
               && (o.price == best.price && o != best ==>
                     best.id in Stamps(cs) && o.id in Stamps(cs) && Stamps(cs)[best.id] < Stamps(cs)[o.id])
  {
    var levels := Run(cs).book.On(side);
    RunGood(cs);
    RunInOrder(cs);
    FlattenPlaced(levels, side, o);
    var i :| 0 <= i < |levels| && levels[i].price == o.price && o in levels[i].orders;
    var j :| 0 <= j < |levels[i].orders| && levels[i].orders[j] == o;
    assert QueueInOrder(levels[0].orders, Stamps(cs));
  }
}
