/** What every command keeps: both sides in price order without empty levels, every resting order at
    its own price and side, no id resting twice, and best bid below best ask. */
module BookInvariants {
  import opened Words
  import opened OrderBook
  import opened SweepShape

  /** How often an id rests in a queue, on a side, in the book. */
  function Count(orders: seq<Resting>, id: nat): nat {
    if orders == [] then 0 else (if orders[0].id == id then 1 else 0) + Count(orders[1..], id)
  }

  function SideCount(levels: seq<Level>, id: nat): nat {
    if levels == [] then 0 else Count(levels[0].orders, id) + SideCount(levels[1..], id)
  }

  function BookCount(book: Book, id: nat): nat {
    SideCount(book.bids, id) + SideCount(book.asks, id)
  }

  ghost predicate NoEmptyLevel(levels: seq<Level>) {
    forall i :: 0 <= i < |levels| ==> levels[i].orders != []
  }

  ghost predicate SideOk(levels: seq<Level>, side: Side) {
    Sorted(levels, side) && AllPlaced(levels, side) && NoEmptyLevel(levels)
  }

  ghost predicate UniqueIds(book: Book) {
    forall id: nat :: BookCount(book, id) <= 1
  }

  ghost predicate Uncrossed(book: Book) {
    book.bids != [] && book.asks != [] ==> book.bids[0].price < book.asks[0].price
  }

  ghost predicate Good(book: Book) {
    && SideOk(book.bids, Buy) && SideOk(book.asks, Sell)
    && UniqueIds(book)
    && Uncrossed(book)
  }

  // ---- The sweep -----------------------------------------------------------------------------

  /** `now` is what a sweep leaves of a level `was`: a suffix of its queue whose first order may
      have lost quantity. */
  ghost predicate Leftover(was: seq<Resting>, now: seq<Resting>) {
    && |now| <= |was|
    && forall j :: 0 <= j < |now| ==>
         var o := was[|was| - |now| + j];
         if j == 0 then now[j] == o.(qty := now[j].qty) else now[j] == o
  }

  lemma {:induction false} MatchListLeaves(orders: seq<Resting>, qty: nat)
    ensures Leftover(orders, MatchList(orders, qty).rest)
    ensures MatchList(orders, qty).qty > 0 ==> MatchList(orders, qty).rest == []
  {
    if orders != [] && qty >= orders[0].qty {
      MatchListLeaves(orders[1..], qty - orders[0].qty);
    }
  }

  lemma {:induction false} MatchListCount(orders: seq<Resting>, qty: nat, id: nat)
    ensures Count(MatchList(orders, qty).rest, id) <= Count(orders, id)
  {
    if orders == [] {
    } else if qty >= orders[0].qty {
      MatchListCount(orders[1..], qty - orders[0].qty, id);
    } else {
      var rest := MatchList(orders, qty).rest;
      assert rest[0].id == orders[0].id && rest[1..] == orders[1..];
    }
  }

  /** `now` is `was` without its first `k` levels, and with at most a leftover of the next one. */
  ghost predicate SweptFrom(was: seq<Level>, now: seq<Level>, k: nat) {
    && k <= |was| && |now| == |was| - k
    && (k < |was| ==>
          && now[0].price == was[k].price
          && now[0].orders != []
          && Leftover(was[k].orders, now[0].orders)
          && now[1..] == was[k + 1..])
  }

  /** The sweep drops the first `k` levels, may shorten level `k`, and leaves every level behind it
      alone. If quantity is left, level `k` does not cross. */
  lemma {:induction false} SweepLeaves(levels: seq<Level>, taker: Side, limit: nat, qty: nat) returns (k: nat)
    requires NoEmptyLevel(levels)
    ensures SweptFrom(levels, Sweep(levels, taker, limit, qty).levels, k)
    ensures Sweep(levels, taker, limit, qty).qty > 0 && k < |levels|
            ==> !Crosses(taker, levels[k].price, limit)
  {
    if levels == [] || qty == 0 || !Crosses(taker, levels[0].price, limit) {
      k := 0;
    } else {
      var m := MatchList(levels[0].orders, qty);
      MatchListLeaves(levels[0].orders, qty);
      if m.rest != [] {
        k := 0;
        assert Sweep(levels[1..], taker, limit, 0) == Swept(levels[1..], 0, []);
      } else {
        var next := SweepLeaves(levels[1..], taker, limit, m.qty);
        k := next + 1;
        assert k < |levels| ==> levels[1..][next + 1..] == levels[k + 1..];
      }
    }
  }

  lemma {:induction false} SweepCount(levels: seq<Level>, taker: Side, limit: nat, qty: nat, id: nat)
    ensures SideCount(Sweep(levels, taker, limit, qty).levels, id) <= SideCount(levels, id)
  {
    if levels != [] && qty > 0 && Crosses(taker, levels[0].price, limit) {
      var m := MatchList(levels[0].orders, qty);
      MatchListCount(levels[0].orders, qty, id);
      SweepCount(levels[1..], taker, limit, m.qty, id);
      var tail := Sweep(levels[1..], taker, limit, m.qty).levels;
      var first := [Level(levels[0].price, m.rest)];
      assert (first + tail)[1..] == tail;
    }
  }

  lemma {:induction false} SweptFromKeeps(was: seq<Level>, now: seq<Level>, k: nat, side: Side)
    requires SideOk(was, side) && SweptFrom(was, now, k)
    ensures SideOk(now, side)
  {
    forall i | 0 < i < |now| ensures now[i] == was[k + i] {
      assert now[1..][i - 1] == was[k + 1..][i - 1];
    }
    if now != [] {
      assert Placed(was[k], side);
      assert Placed(now[0], side);
    }
  }

  lemma {:induction false} SweepKeeps(levels: seq<Level>, side: Side, limit: nat, qty: nat)
    requires SideOk(levels, side)
    ensures var sw := Sweep(levels, side.Opposite(), limit, qty);
            && SideOk(sw.levels, side)
            && (sw.levels != [] ==> levels != [] && !Better(side, sw.levels[0].price, levels[0].price))
            && (sw.levels != [] && sw.qty > 0 ==> !Crosses(side.Opposite(), sw.levels[0].price, limit))
  {
    hide Sweep;
    var sw := Sweep(levels, side.Opposite(), limit, qty);
    var k := SweepLeaves(levels, side.Opposite(), limit, qty);
    SweptFromKeeps(levels, sw.levels, k, side);
  }

  // ---- One order more ------------------------------------------------------------------------

  /** Every level of the side stands behind price `p`. */
  ghost predicate Behind(levels: seq<Level>, side: Side, p: nat) {
    forall i :: 0 <= i < |levels| ==> Better(side, p, levels[i].price)
  }

  lemma {:induction false} PutInFront(head: Level, tail: seq<Level>, side: Side)
    requires SideOk(tail, side) && Behind(tail, side, head.price)
    requires Placed(head, side) && head.orders != []
    ensures SideOk([head] + tail, side)
  {
    var all := [head] + tail;
    assert forall i :: 0 < i < |all| ==> all[i] == tail[i - 1];
  }

  lemma {:induction false} RestBehind(levels: seq<Level>, o: Resting, p: nat)
    requires Behind(levels, o.side, p) && Better(o.side, p, o.price)
    ensures Behind(Rest(levels, o), o.side, p)
  {
    if levels != [] && levels[0].price != o.price && !Better(o.side, o.price, levels[0].price) {
      RestBehind(levels[1..], o, p);
    }
  }

  lemma {:induction false} CountConcat(a: seq<Resting>, b: seq<Resting>, id: nat)
    ensures Count(a + b, id) == Count(a, id) + Count(b, id)
  {
    if a == [] {
      assert a + b == b;
    } else {
      assert (a + b)[1..] == a[1..] + b;
      CountConcat(a[1..], b, id);
    }
  }

  lemma {:induction false} RestKeeps(levels: seq<Level>, o: Resting)
    requires SideOk(levels, o.side)
    ensures SideOk(Rest(levels, o), o.side)
  {
    if levels == [] {
    } else if levels[0].price == o.price {
      PutInFront(Level(o.price, levels[0].orders + [o]), levels[1..], o.side);
    } else if Better(o.side, o.price, levels[0].price) {
      PutInFront(Level(o.price, [o]), levels, o.side);
    } else {
      RestKeeps(levels[1..], o);
      RestBehind(levels[1..], o, levels[0].price);
      PutInFront(levels[0], Rest(levels[1..], o), o.side);
    }
  }

  lemma {:induction false} RestCount(levels: seq<Level>, o: Resting, id: nat)
    ensures SideCount(Rest(levels, o), id) == SideCount(levels, id) + if o.id == id then 1 else 0
  {
    assert Count([o], id) == if o.id == id then 1 else 0;
    if levels == [] {
    } else if levels[0].price == o.price {
      CountConcat(levels[0].orders, [o], id);
    } else if Better(o.side, o.price, levels[0].price) {
      assert ([Level(o.price, [o])] + levels)[1..] == levels;
    } else {
      RestCount(levels[1..], o, id);
    }
  }

  // ---- One order less ------------------------------------------------------------------------

  lemma {:induction false} WithoutCount(orders: seq<Resting>, gone: nat, id: nat)
    ensures Count(Without(orders, gone), id) == if id == gone then 0 else Count(orders, id)
  {
    if orders != [] {
      WithoutCount(orders[1..], gone, id);
    }
  }

  lemma {:induction false} WithoutNone(orders: seq<Resting>, id: nat)
    requires Count(orders, id) == 0
    ensures Without(orders, id) == orders
    ensures forall i :: 0 <= i < |orders| ==> orders[i].id != id
  {
    if orders != [] {
      var behind := orders[1..];
      WithoutNone(behind, id);
      assert Without(orders, id) == [orders[0]] + behind && orders[0].id != id;
      hide Without, Count;
      assert orders == [orders[0]] + behind;
    }
  }

  lemma {:induction false} WithoutKeeps(orders: seq<Resting>, id: nat)
    ensures forall o :: o in Without(orders, id) ==> o in orders && o.id != id
  {
    if orders != [] {
      WithoutKeeps(orders[1..], id);
    }
  }

  lemma {:induction false} PruneBehind(levels: seq<Level>, id: nat, side: Side, p: nat)
    requires Behind(levels, side, p)
    ensures Behind(Prune(levels, id), side, p)
  {
    if levels != [] {
      PruneBehind(levels[1..], id, side, p);
    }
  }

  lemma {:induction false} PruneKeeps(levels: seq<Level>, id: nat, side: Side)
    requires SideOk(levels, side)
    ensures SideOk(Prune(levels, id), side)
    ensures Prune(levels, id) != [] ==> levels != [] && !Better(side, Prune(levels, id)[0].price, levels[0].price)
  {
    if levels != [] {
      var kept := Without(levels[0].orders, id);
      WithoutKeeps(levels[0].orders, id);
      PruneKeeps(levels[1..], id, side);
      if kept != [] {
        PruneBehind(levels[1..], id, side, levels[0].price);
        forall j | 0 <= j < |kept| ensures kept[j].price == levels[0].price && kept[j].side == side {
          assert kept[j] in kept;
        }
        PutInFront(Level(levels[0].price, kept), Prune(levels[1..], id), side);
      }
    }
  }

  lemma {:induction false} PruneCount(levels: seq<Level>, gone: nat, id: nat)
    ensures SideCount(Prune(levels, gone), id) == if id == gone then 0 else SideCount(levels, id)
  {
    if levels != [] {
      WithoutCount(levels[0].orders, gone, id);
      PruneCount(levels[1..], gone, id);
    }
  }

  // ---- One quantity changed ------------------------------------------------------------------

  lemma {:induction false} RequantifyCount(orders: seq<Resting>, changed: nat, qty: nat, id: nat)
    ensures Count(Requantify(orders, changed, qty), id) == Count(orders, id)
  {
    if orders != [] {
      RequantifyCount(orders[1..], changed, qty, id);
      assert Requantify(orders, changed, qty)[1..] == Requantify(orders[1..], changed, qty);
    }
  }

  lemma {:induction false} SetQuantityCount(levels: seq<Level>, changed: nat, qty: nat, id: nat)
    ensures SideCount(SetQuantity(levels, changed, qty), id) == SideCount(levels, id)
  {
    if levels != [] {
      RequantifyCount(levels[0].orders, changed, qty, id);
      SetQuantityCount(levels[1..], changed, qty, id);
      assert SetQuantity(levels, changed, qty)[1..] == SetQuantity(levels[1..], changed, qty);
    }
  }

  // ---- Looking an id up ----------------------------------------------------------------------

  lemma {:induction false} FlattenCount(levels: seq<Level>, id: nat)
    ensures Count(Flatten(levels), id) == SideCount(levels, id)
  {
    if levels != [] {
      CountConcat(levels[0].orders, Flatten(levels[1..]), id);
      FlattenCount(levels[1..], id);
    }
  }

  lemma {:induction false} FindInList(orders: seq<Resting>, id: nat)
    ensures FindIn(orders, id).Some? <==> Count(orders, id) > 0
    ensures FindIn(orders, id).Some? ==> FindIn(orders, id).value in orders && FindIn(orders, id).value.id == id
  {
    if orders != [] {
      FindInList(orders[1..], id);
    }
  }

  /** The lookup finds an order with the id exactly if one rests. */
  lemma {:induction false} FindIsCount(book: Book, id: nat)
    ensures Find(book, id).Some? <==> BookCount(book, id) > 0
    ensures Find(book, id).Some? ==>
              && Find(book, id).value.id == id
              && Find(book, id).value in Flatten(book.bids) + Flatten(book.asks)
  {
    FindInList(Flatten(book.bids) + Flatten(book.asks), id);
    CountConcat(Flatten(book.bids), Flatten(book.asks), id);
    FlattenCount(book.bids, id);
    FlattenCount(book.asks, id);
  }

  lemma {:induction false} FlattenPlaced(levels: seq<Level>, side: Side, o: Resting)
    requires AllPlaced(levels, side) && o in Flatten(levels)
    ensures o.side == side
    ensures exists i :: 0 <= i < |levels| && levels[i].price == o.price && o in levels[i].orders
  {
    if o in levels[0].orders {
    } else {
      FlattenPlaced(levels[1..], side, o);
      var i :| 0 <= i < |levels| - 1 && levels[1..][i].price == o.price && o in levels[1..][i].orders;
      assert o in levels[i + 1].orders;
    }
  }

  lemma {:induction false} CountMember(orders: seq<Resting>, o: Resting)
    requires o in orders
    ensures Count(orders, o.id) > 0
  {
    if orders[0] != o {
      CountMember(orders[1..], o);
    }
  }

  /** A found order rests on its own side, and its id on no other. */
  lemma {:induction false} FoundOnItsSide(book: Book, id: nat)
    requires Good(book) && Find(book, id).Some?
    ensures var o := Find(book, id).value;
            && o.id == id && o in Flatten(book.On(o.side))
            && SideCount(book.On(o.side), id) == 1
            && SideCount(book.On(o.side.Opposite()), id) == 0
  {
    var o := Find(book, id).value;
    FindIsCount(book, id);
    var side := if o in Flatten(book.bids) then Buy else Sell;
    FlattenPlaced(book.On(side), side, o);
    CountMember(Flatten(book.On(side)), o);
    FlattenCount(book.On(side), id);
    assert BookCount(book, id) <= 1;
  }

  // ---- The commands ----------------------------------------------------------------------------

  /** Uncrossed, seen from one side: its best level would not cross the other side's best. */
  ghost predicate Apart(side: Side, own: seq<Level>, opposite: seq<Level>) {
    own != [] && opposite != [] ==> !Crosses(side, opposite[0].price, own[0].price)
  }

  lemma {:induction false} GoodBySide(book: Book, side: Side)
    ensures Good(book) <==>
              && SideOk(book.On(side), side) && SideOk(book.On(side.Opposite()), side.Opposite())
              && UniqueIds(book) && Apart(side, book.On(side), book.On(side.Opposite()))
  {
  }

  lemma {:induction false} RestBest(levels: seq<Level>, o: Resting)
    ensures Rest(levels, o) != []
    ensures Rest(levels, o)[0].price == o.price || (levels != [] && Rest(levels, o)[0].price == levels[0].price)
  {
  }

  /** The matching part of a NEW: the opposite side is swept. */
  lemma {:induction false} SweptBookGood(book: Book, o: Resting)
    requires Good(book)
    ensures var sw := Sweep(book.On(o.side.Opposite()), o.side, o.price, o.qty);
            var after := book.With(o.side.Opposite(), sw.levels);
            && Good(after)
            && (forall id :: BookCount(after, id) <= BookCount(book, id))
            && (sw.qty > 0 && sw.levels != [] ==> !Crosses(o.side, sw.levels[0].price, o.price))
  {
    hide Sweep;
    var opp := o.side.Opposite();
    var sw := Sweep(book.On(opp), o.side, o.price, o.qty);
    var after := book.With(opp, sw.levels);
    SweepKeeps(book.On(opp), opp, o.price, o.qty);
    forall id: nat ensures BookCount(after, id) <= BookCount(book, id) {
      SweepCount(book.On(opp), o.side, o.price, o.qty, id);
    }
    assert UniqueIds(after);
    GoodBySide(book, o.side);
    GoodBySide(after, o.side);
  }

  /** Resting an order whose id does not rest yet and whose price the other side does not cross. */
  lemma {:induction false} RestedBookGood(book: Book, o: Resting)
    requires Good(book) && Find(book, o.id).None?
    requires var opposite := book.On(o.side.Opposite());
             opposite != [] ==> !Crosses(o.side, opposite[0].price, o.price)
    ensures var after := book.With(o.side, Rest(book.On(o.side), o));
            && Good(after)
            && BookCount(after, o.id) == 1
  {
    hide Rest, Find;
    var after := book.With(o.side, Rest(book.On(o.side), o));
    RestKeeps(book.On(o.side), o);
    RestBest(book.On(o.side), o);
    FindIsCount(book, o.id);
    forall id: nat ensures BookCount(after, id) == BookCount(book, id) + if id == o.id then 1 else 0 {
      RestCount(book.On(o.side), o, id);
    }
    assert UniqueIds(after);
    GoodBySide(book, o.side);
    GoodBySide(after, o.side);
  }

  lemma {:induction false} HandleNewGood(s: State, o: Resting)
    requires Good(s.book)
    ensures Good(HandleNew(s, o).book)
  {
    hide Sweep, Rest, Find;
    var sw := Sweep(s.book.On(o.side.Opposite()), o.side, o.price, o.qty);
    var swept := s.book.With(o.side.Opposite(), sw.levels);
    SweptBookGood(s.book, o);
    if sw.qty > 0 && Find(swept, o.id).None? {
      RestedBookGood(swept, o.(qty := sw.qty));
    }
  }

  lemma {:induction false} RemoveGood(book: Book, o: Resting)
    requires Good(book)
    ensures Good(Remove(book, o))
  {
    hide Prune;
    var after := Remove(book, o);
    PruneKeeps(book.On(o.side), o.id, o.side);
    forall id: nat ensures BookCount(after, id) <= BookCount(book, id) {
      PruneCount(book.On(o.side), o.id, id);
    }
    assert UniqueIds(after);
    GoodBySide(book, o.side);
    GoodBySide(after, o.side);
  }

  lemma {:induction false} RequantifiedGood(book: Book, side: Side, id: nat, qty: nat)
    requires Good(book)
    ensures Good(book.With(side, SetQuantity(book.On(side), id, qty)))
  {
    var after := book.With(side, SetQuantity(book.On(side), id, qty));
    forall other: nat ensures BookCount(after, other) == BookCount(book, other) {
      SetQuantityCount(book.On(side), id, qty, other);
    }
    assert UniqueIds(after);
    GoodBySide(book, side);
    GoodBySide(after, side);
  }

  lemma {:induction false} StepGood(s: State, c: Command)
    requires Good(s.book)
    ensures Good(Step(s, c).book)
  {
    hide Sweep, Rest, Find, Prune, SetQuantity;
    match c
    case New(o) => HandleNewGood(s, o);
    case Cancel(id, side) =>
      if Find(s.book, id).Some? {
        RemoveGood(s.book, Find(s.book, id).value);
      }
    case Amend(o) =>
      if Find(s.book, o.id).Some? {
        var was := Find(s.book, o.id).value;
        RemoveGood(s.book, was);
        HandleNewGood(s.(book := Remove(s.book, was)), o);
        RequantifiedGood(s.book, o.side, o.id, o.qty);
      }
    case Ignored =>
  }

  /** In every state any sequence of commands reaches, the book is good: sorted, without empty
      levels, every order placed, no id twice, never crossed. */
  lemma {:induction false} RunGood(cs: seq<Command>)
    ensures Good(Run(cs).book)
  {
    if cs != [] {
      RunGood(cs[..|cs| - 1]);
      StepGood(Run(cs[..|cs| - 1]), cs[|cs| - 1]);
    }
  }

  // ---- Zero quantities ---------------------------------------------------------------------------

  ghost predicate Positive(book: Book) {
    PositiveSide(book.bids) && PositiveSide(book.asks)
  }

  lemma {:induction false} MatchListPositive(orders: seq<Resting>, qty: nat)
    requires PositiveQueue(orders)
    ensures PositiveQueue(MatchList(orders, qty).rest)
  {
    if orders == [] {
    } else if qty >= orders[0].qty {
      MatchListPositive(orders[1..], qty - orders[0].qty);
    } else {
      var rest := MatchList(orders, qty).rest;
      assert forall j :: 0 < j < |rest| ==> rest[j] == orders[j];
    }
  }

  lemma {:induction false} SweepPositive(levels: seq<Level>, taker: Side, limit: nat, qty: nat)
    requires PositiveSide(levels)
    ensures PositiveSide(Sweep(levels, taker, limit, qty).levels)
  {
    if levels != [] && qty > 0 && Crosses(taker, levels[0].price, limit) {
      MatchListPositive(levels[0].orders, qty);
      assert PositiveSide(levels[1..]);
      var m := MatchList(levels[0].orders, qty);
      SweepPositive(levels[1..], taker, limit, m.qty);
      var tail, head := Sweep(levels[1..], taker, limit, m.qty).levels, Level(levels[0].price, m.rest);
      assert forall i :: 0 < i < |[head] + tail| ==> ([head] + tail)[i] == tail[i - 1];
    }
  }

  lemma {:induction false} RestPositive(levels: seq<Level>, o: Resting)
    requires PositiveSide(levels) && o.qty > 0
    ensures PositiveSide(Rest(levels, o))
  {
    if levels != [] && levels[0].price != o.price && !Better(o.side, o.price, levels[0].price) {
      assert PositiveSide(levels[1..]);
      RestPositive(levels[1..], o);
    }
  }

  lemma {:induction false} PrunePositive(levels: seq<Level>, id: nat)
    requires PositiveSide(levels)
    ensures PositiveSide(Prune(levels, id))
  {
    if levels != [] {
      assert PositiveSide(levels[1..]);
      PrunePositive(levels[1..], id);
      WithoutKeeps(levels[0].orders, id);
      var kept := Without(levels[0].orders, id);
      forall j | 0 <= j < |kept| ensures kept[j].qty > 0 {
        assert kept[j] in levels[0].orders;
      }
    }
  }

  /** An amend to quantity zero of an order that keeps its side and price. */
  predicate Zeroes(s: State, c: Command) {
    && c.Amend? && c.order.qty == 0
    && match Find(s.book, c.order.id)
       case None => false
       case Some(was) => was.side == c.order.side && was.price == c.order.price
  }

  lemma {:induction false} NewPositive(s: State, o: Resting)
    requires Positive(s.book)
    ensures Positive(HandleNew(s, o).book)
  {
    hide Sweep, Rest, Find;
    var opp := o.side.Opposite();
    var sw := Sweep(s.book.On(opp), o.side, o.price, o.qty);
    SweepPositive(s.book.On(opp), o.side, o.price, o.qty);
    if sw.qty > 0 {
      RestPositive(s.book.On(o.side), o.(qty := sw.qty));
    }
  }

  lemma {:induction false} SetQuantityPositive(s: State, o: Resting)
    requires Good(s.book) && Positive(s.book) && Find(s.book, o.id).Some?
    requires var was := Find(s.book, o.id).value; was.side == o.side && was.price == o.price
    ensures Positive(Step(s, Amend(o)).book) <==> o.qty > 0
  {
    var levels, after := s.book.On(o.side), SetQuantity(s.book.On(o.side), o.id, o.qty);
    FoundOnItsSide(s.book, o.id);
    FlattenPlaced(levels, o.side, Find(s.book, o.id).value);
    if o.qty == 0 {
      var i :| 0 <= i < |levels| && Find(s.book, o.id).value in levels[i].orders;
      var j :| 0 <= j < |levels[i].orders| && levels[i].orders[j] == Find(s.book, o.id).value;
      assert after[i].orders[j].qty == 0 && !PositiveQueue(after[i].orders);
    } else {
      forall i | 0 <= i < |after| ensures PositiveQueue(after[i].orders) {
        assert PositiveQueue(levels[i].orders);
      }
    }
  }

  /** A command leaves only positive quantities resting unless it amends a resting order to zero at
      its old place, and that always leaves a zero. */
  lemma {:induction false} StepPositiveUnlessZeroed(s: State, c: Command)
    requires Good(s.book) && Positive(s.book)
    ensures Positive(Step(s, c).book) <==> !Zeroes(s, c)
  {
    hide Sweep, Rest, Find, Prune, SetQuantity;
    match c
    case New(o) => NewPositive(s, o);
    case Cancel(id, side) =>
      if Find(s.book, id).Some? {
        PrunePositive(s.book.On(side), id);
        FoundOnItsSide(s.book, id);
      }
    case Amend(o) =>
      if Find(s.book, o.id).Some? {
        var was := Find(s.book, o.id).value;
        FoundOnItsSide(s.book, o.id);
        if was.side == o.side && was.price == o.price {
          SetQuantityPositive(s, o);
        } else {
          PrunePositive(s.book.On(was.side), o.id);
          NewPositive(s.(book := Remove(s.book, was)), o);
        }
      }
    case Ignored =>
  }

  /** Along this run no order is amended to zero where it stands. */
  ghost predicate NeverZeroes(cs: seq<Command>) {
    cs == [] || (NeverZeroes(cs[..|cs| - 1]) && !Zeroes(Run(cs[..|cs| - 1]), cs[|cs| - 1]))
  }

  lemma {:induction false} RunPositive(cs: seq<Command>)
    requires NeverZeroes(cs)
    ensures Positive(Run(cs).book)
  {
    hide Step;
    if cs != [] {
      var before := cs[..|cs| - 1];
      RunPositive(before);
      RunGood(before);
      StepPositiveUnlessZeroed(Run(before), cs[|cs| - 1]);
    }
  }

  /** So after such a run a NEW logs a trade of quantity zero only as its last one, and exactly when it
      runs dry inside a level. */
  lemma {:induction false} ZeroTradeAfterRun(cs: seq<Command>, o: Resting)
    requires NeverZeroes(cs)
    ensures var levels := Run(cs).book.On(o.side.Opposite());
            var fills := Sweep(levels, o.side, o.price, o.qty).fills;
            && OnlyLastZero(fills)
            && (EndsWithZero(fills) <==> DryInside(levels, o.side, o.price, o.qty))
  {
    RunPositive(cs);
    ZeroTradeExactlyWhenDryInside(Run(cs).book.On(o.side.Opposite()), o.side, o.price, o.qty);
  }

  /** A same-price amend to zero does rest an order without quantity. */
  lemma {:induction false} AmendToZeroRests(id: nat, price: nat)
    ensures var cs := [New(Resting(id, Sell, price, 3)), Amend(Resting(id, Sell, price, 0))];
            Run(cs).book == Book([], [Level(price, [Resting(id, Sell, price, 0)])])
  {
    var o, zero := Resting(id, Sell, price, 3), Resting(id, Sell, price, 0);
    var cs := [New(o), Amend(zero)];
    assert cs[..1] == [New(o)] && cs[..1][..0] == [];
    assert Run(cs[..1][..0]) == Empty;
    var one := Run(cs[..1]);
    assert one == HandleNew(Empty, o);
    assert Find(Empty.book, id) == None;
    assert one.book == Book([], [Level(price, [o])]);
    assert Flatten(one.book.asks) == [o];
    assert Find(one.book, id) == Some(o);
    assert Requantify([o], id, 0) == [zero];
    assert SetQuantity(one.book.asks, id, 0) == [Level(price, [zero])];
  }
}
