/** Where the quantity goes, over single commands and over whole runs. */
module BookLedger {
  import opened Words
  import opened OrderBook
  import opened SweepShape
  import opened BookInvariants
  import opened BookHistory

  /** Quantity of one id in a queue. */
  function VolumeOf(orders: seq<Resting>, id: nat): nat {
    if orders == [] then 0
    else (if orders[0].id == id then orders[0].qty else 0) + VolumeOf(orders[1..], id)
  }

  function SideVolume(levels: seq<Level>): nat {
    Volume(Flatten(levels))
  }

  function TotalResting(book: Book): nat {
    SideVolume(book.bids) + SideVolume(book.asks)
  }

  /** What one command moves: quantity its order brings in, quantity matched (taken from the taker
      and from makers alike), residual thrown away, quantity taken out of the book unmatched. */
  datatype Flow = Flow(arrived: nat, executed: nat, dropped: nat, withdrawn: nat) {
    function Plus(f: Flow): Flow {
      Flow(arrived + f.arrived, executed + f.executed, dropped + f.dropped, withdrawn + f.withdrawn)
    }
  }

  function NewFlow(book: Book, o: Resting): Flow {
    var sw := Sweep(book.On(o.side.Opposite()), o.side, o.price, o.qty);
    Flow(o.qty, FillVolume(sw.fills), if Rests(book, o) then 0 else sw.qty, 0)
  }

  predicate HasId(orders: seq<Resting>, id: nat) {
    exists i :: 0 <= i < |orders| && orders[i].id == id
  }

  lemma {:induction false} FoundIfThere(orders: seq<Resting>, id: nat)
    ensures FindIn(orders, id).Some? <==> HasId(orders, id)
  {
    if orders != [] {
      FoundIfThere(orders[1..], id);
      if HasId(orders[1..], id) {
        var i :| 0 <= i < |orders[1..]| && orders[1..][i].id == id;
        assert orders[i + 1].id == id;
      }
      if HasId(orders, id) && orders[0].id != id {
        var i :| 0 <= i < |orders| && orders[i].id == id;
        assert orders[1..][i - 1].id == id;
      }
    }
  }

  lemma {:induction false} HasIdConcat(a: seq<Resting>, b: seq<Resting>, id: nat)
    ensures HasId(a + b, id) <==> HasId(a, id) || HasId(b, id)
  {
    forall i | 0 <= i < |a| ensures (a + b)[i] == a[i] {}
    forall i | 0 <= i < |b| ensures (a + b)[|a| + i] == b[i] {}
    if HasId(a + b, id) {
      var i :| 0 <= i < |a + b| && (a + b)[i].id == id;
      assert if i < |a| then a[i].id == id else b[i - |a|].id == id;
    }
    if HasId(a, id) {
      var i :| 0 <= i < |a| && a[i].id == id;
      assert (a + b)[i].id == id;
    }
    if HasId(b, id) {
      var i :| 0 <= i < |b| && b[i].id == id;
      assert (a + b)[|a| + i].id == id;
    }
  }

  /** A taker wants something after the sweep exactly if it wants more than all crossing makers have,
      and then exactly those are gone. */
  lemma {:induction false} WantsMore(levels: seq<Level>, taker: Side, limit: nat, qty: nat)
    ensures var q, c, sw := Flatten(levels), CrossingCount(levels, taker, limit), Sweep(levels, taker, limit, qty);
      && (sw.qty > 0 <==> qty > Volume(q[..c]))
      && (sw.qty > 0 ==> sw.qty == qty - Volume(q[..c]) && Flatten(sw.levels) == q[c..])
  {
    hide Sweep, Flatten, CrossingCount, Volume;
    var q, c := Flatten(levels), CrossingCount(levels, taker, limit);
    var k, touched := SweepIsServed(levels, taker, limit, qty);
    if k < c {
      VolumeUpTo(q, k, c);
    }
  }

  /** A NEW loses its residual exactly if it wants more than all crossing makers have while its id rests
      on its own side or behind the crossing makers. */
  lemma {:induction false} DroppedExactlyIfTaken(book: Book, o: Resting)
    ensures var own, q := Flatten(book.On(o.side)), Flatten(book.On(o.side.Opposite()));
      var c := CrossingCount(book.On(o.side.Opposite()), o.side, o.price);
      && (NewFlow(book, o).dropped > 0
          <==> o.qty > Volume(q[..c]) && (HasId(own, o.id) || HasId(q[c..], o.id)))
      && (NewFlow(book, o).dropped > 0 ==> NewFlow(book, o).dropped == o.qty - Volume(q[..c]))
  {
    hide Sweep, Flatten, CrossingCount, Volume, FindIn, HasId, FillVolume;
    var opp := o.side.Opposite();
    var sw := Sweep(book.On(opp), o.side, o.price, o.qty);
    WantsMore(book.On(opp), o.side, o.price, o.qty);
    var swept := book.With(opp, sw.levels);
    assert swept.On(opp) == sw.levels && swept.On(o.side) == book.On(o.side);
    FoundIfThere(Flatten(swept.bids) + Flatten(swept.asks), o.id);
    HasIdConcat(Flatten(swept.bids), Flatten(swept.asks), o.id);
  }

  function FlowOf(s: State, c: Command): Flow {
    match c
    case New(o) => NewFlow(s.book, o)
    case Cancel(id, side) =>
      (match Find(s.book, id)
       case Some(o) => if o.side == side then Flow(0, 0, 0, o.qty) else Flow(0, 0, 0, 0)
       case None => Flow(0, 0, 0, 0))
    case Amend(o) =>
      (match Find(s.book, o.id)
       case None => Flow(0, 0, 0, 0)
       case Some(was) =>
         if was.side != o.side then Flow(0, 0, 0, 0)
         else if was.price == o.price then Flow(o.qty, 0, 0, was.qty)
         else NewFlow(Remove(s.book, was), o).(withdrawn := was.qty))
    case Ignored => Flow(0, 0, 0, 0)
  }

  // ---- Volumes under the operations ----------------------------------------------------------

  lemma {:induction false} MatchListVolume(orders: seq<Resting>, qty: nat)
    ensures var m := MatchList(orders, qty);
            && Volume(orders) == Volume(m.rest) + FillVolume(m.fills)
            && qty == m.qty + FillVolume(m.fills)
  {
    if orders == [] {
    } else if qty >= orders[0].qty {
      MatchListVolume(orders[1..], qty - orders[0].qty);
      var m := MatchList(orders[1..], qty - orders[0].qty);
      assert ([FillOf(orders[0], orders[0].qty)] + m.fills)[1..] == m.fills;
    } else {
      var rest := MatchList(orders, qty).rest;
      assert rest[1..] == orders[1..];
      assert FillVolume([FillOf(orders[0], qty)]) == qty;
    }
  }

  /** Each unit a sweep takes from the makers it takes from the taker. */
  lemma {:induction false} SweepConserves(levels: seq<Level>, taker: Side, limit: nat, qty: nat)
    ensures var sw := Sweep(levels, taker, limit, qty);
            && SideVolume(levels) == SideVolume(sw.levels) + FillVolume(sw.fills)
            && qty == sw.qty + FillVolume(sw.fills)
  {
    if levels != [] && qty > 0 && Crosses(taker, levels[0].price, limit) {
      var m := MatchList(levels[0].orders, qty);
      var tail := Sweep(levels[1..], taker, limit, m.qty);
      MatchListVolume(levels[0].orders, qty);
      SweepConserves(levels[1..], taker, limit, m.qty);
      FillVolumeConcat(m.fills, tail.fills);
      VolumeConcat(levels[0].orders, Flatten(levels[1..]));
      VolumeConcat(m.rest, Flatten(tail.levels));
      assert Flatten(Sweep(levels, taker, limit, qty).levels) == m.rest + Flatten(tail.levels);
    }
  }

  lemma {:induction false} RestVolume(levels: seq<Level>, o: Resting)
    ensures SideVolume(Rest(levels, o)) == SideVolume(levels) + o.qty
  {
    assert Volume([o]) == o.qty;
    if levels == [] {
      assert Flatten([Level(o.price, [o])]) == [o] + [];
      assert [o] + [] == [o];
    } else if levels[0].price == o.price {
      var behind := Flatten(levels[1..]);
      VolumeConcat(levels[0].orders, behind);
      VolumeConcat(levels[0].orders, [o]);
      VolumeConcat(levels[0].orders + [o], behind);
    } else if Better(o.side, o.price, levels[0].price) {
      VolumeConcat([o], Flatten(levels));
      assert ([Level(o.price, [o])] + levels)[1..] == levels;
    } else {
      RestVolume(levels[1..], o);
      VolumeConcat(levels[0].orders, Flatten(levels[1..]));
      VolumeConcat(levels[0].orders, Flatten(Rest(levels[1..], o)));
    }
  }

  lemma {:induction false} VolumeOfConcat(a: seq<Resting>, b: seq<Resting>, id: nat)
    ensures VolumeOf(a + b, id) == VolumeOf(a, id) + VolumeOf(b, id)
  {
    if a == [] {
      assert a + b == b;
    } else {
      assert (a + b)[1..] == a[1..] + b;
      VolumeOfConcat(a[1..], b, id);
    }
  }

  lemma {:induction false} VolumeOfOne(orders: seq<Resting>, o: Resting)
    requires o in orders && Count(orders, o.id) == 1
    ensures VolumeOf(orders, o.id) == o.qty
  {
    if orders[0] == o {
      NoneLeft(orders[1..], o.id);
    } else {
      if orders[0].id == o.id {
        CountMember(orders[1..], o);
      }
      VolumeOfOne(orders[1..], o);
    }
  }

  lemma {:induction false} NoneLeft(orders: seq<Resting>, id: nat)
    requires Count(orders, id) == 0
    ensures VolumeOf(orders, id) == 0
  {
    if orders != [] {
      NoneLeft(orders[1..], id);
    }
  }

  lemma {:induction false} WithoutVolume(orders: seq<Resting>, id: nat)
    ensures Volume(orders) == Volume(Without(orders, id)) + VolumeOf(orders, id)
  {
    if orders != [] {
      WithoutVolume(orders[1..], id);
    }
  }

  lemma {:induction false} PruneVolume(levels: seq<Level>, id: nat)
    ensures SideVolume(levels) == SideVolume(Prune(levels, id)) + VolumeOf(Flatten(levels), id)
  {
    if levels != [] {
      var kept, behind := Without(levels[0].orders, id), Flatten(levels[1..]);
      WithoutVolume(levels[0].orders, id);
      PruneVolume(levels[1..], id);
      VolumeConcat(levels[0].orders, behind);
      VolumeOfConcat(levels[0].orders, behind, id);
      VolumeConcat(kept, Flatten(Prune(levels[1..], id)));
      assert Flatten(Prune(levels, id)) == kept + Flatten(Prune(levels[1..], id));
    }
  }

  lemma {:induction false} RequantifyVolume(orders: seq<Resting>, id: nat, qty: nat)
    requires Count(orders, id) <= 1
    ensures Volume(Requantify(orders, id, qty)) + VolumeOf(orders, id)
            == Volume(orders) + if Count(orders, id) == 1 then qty else 0
  {
    if orders != [] {
      RequantifyVolume(orders[1..], id, qty);
      assert Requantify(orders, id, qty)[1..] == Requantify(orders[1..], id, qty);
    }
  }

  lemma {:induction false} SetQuantityVolume(levels: seq<Level>, id: nat, qty: nat)
    requires SideCount(levels, id) <= 1
    ensures SideVolume(SetQuantity(levels, id, qty)) + VolumeOf(Flatten(levels), id)
            == SideVolume(levels) + if SideCount(levels, id) == 1 then qty else 0
  {
    if levels != [] {
      var behind, changed := Flatten(levels[1..]), Requantify(levels[0].orders, id, qty);
      RequantifyVolume(levels[0].orders, id, qty);
      SetQuantityVolume(levels[1..], id, qty);
      assert SetQuantity(levels, id, qty)[1..] == SetQuantity(levels[1..], id, qty);
      VolumeConcat(levels[0].orders, behind);
      VolumeOfConcat(levels[0].orders, behind, id);
      VolumeConcat(changed, Flatten(SetQuantity(levels[1..], id, qty)));
    }
  }

  // ---- Commands and runs ---------------------------------------------------------------------

  /** Two sides share the total. */
  lemma {:induction false} Shares(book: Book, side: Side)
    ensures TotalResting(book) == SideVolume(book.On(side)) + SideVolume(book.On(side.Opposite()))
  {
  }

  /** A NEW is executed, rested or dropped, and what it executes leaves the book. */
  lemma {:induction false} NewConserves(s: State, o: Resting)
    ensures var f := NewFlow(s.book, o);
            && TotalResting(HandleNew(s, o).book) + 2 * f.executed + f.dropped == TotalResting(s.book) + f.arrived
  {
    hide Sweep, Rest, Find, SideVolume, FillVolume;
    var opp := o.side.Opposite();
    var sw := Sweep(s.book.On(opp), o.side, o.price, o.qty);
    var swept := s.book.With(opp, sw.levels);
    SweepConserves(s.book.On(opp), o.side, o.price, o.qty);
    Shares(s.book, o.side);
    Shares(swept, o.side);
    if Rests(s.book, o) {
      RestVolume(s.book.On(o.side), o.(qty := sw.qty));
      Shares(HandleNew(s, o).book, o.side);
    }
  }

  lemma {:induction false} RemoveConserves(book: Book, id: nat)
    requires Good(book) && Find(book, id).Some?
    ensures var o := Find(book, id).value;
            TotalResting(Remove(book, o)) + o.qty == TotalResting(book)
  {
    hide Find, Prune, SideVolume;
    var o := Find(book, id).value;
    FoundOnItsSide(book, id);
    FlattenCount(book.On(o.side), id);
    VolumeOfOne(Flatten(book.On(o.side)), o);
    PruneVolume(book.On(o.side), id);
    Shares(book, o.side);
    Shares(Remove(book, o), o.side);
  }

  lemma {:induction false} RequantifyConserves(book: Book, id: nat, qty: nat)
    requires Good(book) && Find(book, id).Some?
    ensures var o := Find(book, id).value;
            TotalResting(book.With(o.side, SetQuantity(book.On(o.side), id, qty))) + o.qty
            == TotalResting(book) + qty
  {
    hide Find, SetQuantity, SideVolume;
    var o := Find(book, id).value;
    FoundOnItsSide(book, id);
    FlattenCount(book.On(o.side), id);
    VolumeOfOne(Flatten(book.On(o.side)), o);
    SetQuantityVolume(book.On(o.side), id, qty);
    Shares(book, o.side);
    Shares(book.With(o.side, SetQuantity(book.On(o.side), id, qty)), o.side);
  }

  /** An amend never loses a residual: the id it needs has just been freed. */
  lemma {:induction false} AmendDropsNothing(s: State, o: Resting)
    requires Good(s.book)
    ensures FlowOf(s, Amend(o)).dropped == 0
  {
    hide Sweep, Find, Prune, Flatten, Volume, FindIn, HasId, FillVolume, CrossingCount;
    if Find(s.book, o.id).Some? && Find(s.book, o.id).value.side == o.side {
      var opp := o.side.Opposite();
      var book := Remove(s.book, Find(s.book, o.id).value);
      var q, c := Flatten(book.On(opp)), CrossingCount(book.On(opp), o.side, o.price);
      FoundOnItsSide(s.book, o.id);
      PruneCount(s.book.On(o.side), o.id, o.id);
      NoneThere(book.On(o.side), o.id);
      NoneThere(book.On(opp), o.id);
      assert q == q[..c] + q[c..];
      HasIdConcat(q[..c], q[c..], o.id);
      DroppedExactlyIfTaken(book, o);
    }
  }

  lemma {:induction false} NoneThere(levels: seq<Level>, id: nat)
    requires SideCount(levels, id) == 0
    ensures !HasId(Flatten(levels), id)
  {
    FlattenCount(levels, id);
    FindInList(Flatten(levels), id);
    FoundIfThere(Flatten(levels), id);
  }

  lemma {:induction false} StepConserves(s: State, c: Command)
    requires Good(s.book)
    ensures var f := FlowOf(s, c);
            TotalResting(Step(s, c).book) + 2 * f.executed + f.dropped + f.withdrawn
            == TotalResting(s.book) + f.arrived
  {
    hide Sweep, Rest, Find, Prune, SetQuantity, SideVolume, FillVolume, NewFlow;
    match c
    case New(o) => NewConserves(s, o);
      assert NewFlow(s.book, o).withdrawn == 0 by { NothingWithdrawn(s.book, o); }
    case Cancel(id, side) =>
      if Find(s.book, id).Some? {
        FoundOnItsSide(s.book, id);
        RemoveConserves(s.book, id);
      }
    case Amend(o) =>
      if Find(s.book, o.id).Some? {
        var was := Find(s.book, o.id).value;
        RemoveConserves(s.book, o.id);
        RequantifyConserves(s.book, o.id, o.qty);
        NewConserves(s.(book := Remove(s.book, was)), o);
      }
    case Ignored =>
  }

  lemma {:induction false} NothingWithdrawn(book: Book, o: Resting)
    ensures NewFlow(book, o).withdrawn == 0
  {
  }

  function RunFlow(cs: seq<Command>): Flow {
    if cs == [] then Flow(0, 0, 0, 0)
    else RunFlow(cs[..|cs| - 1]).Plus(FlowOf(Run(cs[..|cs| - 1]), cs[|cs| - 1]))
  }

  /** Over every run, all quantity that arrived is resting, was executed on both sides of a trade,
      was dropped as a duplicate's residual, or was withdrawn. */
  lemma {:induction false} RunConserves(cs: seq<Command>)
    ensures var f := RunFlow(cs);
            TotalResting(Run(cs).book) + 2 * f.executed + f.dropped + f.withdrawn == f.arrived
  {
    if cs != [] {
      var before := cs[..|cs| - 1];
      RunConserves(before);
      RunGood(before);
      StepConserves(Run(before), cs[|cs| - 1]);
    }
  }

  // ---- The trade log ---------------------------------------------------------------------------

  function LogVolume(log: seq<Trade>): nat {
    if log == [] then 0 else log[0].quantity + LogVolume(log[1..])
  }

  ghost predicate Fits(fills: seq<Fill>) {
    forall i :: 0 <= i < |fills| ==> fills[i].qty < TRADE_QUANTITY_MODULUS
  }

  lemma {:induction false} LogVolumeConcat(a: seq<Trade>, b: seq<Trade>)
    ensures LogVolume(a + b) == LogVolume(a) + LogVolume(b)
  {
    if a == [] {
      assert a + b == b;
    } else {
      assert (a + b)[1..] == a[1..] + b;
      LogVolumeConcat(a[1..], b);
    }
  }

  /** The log of a sweep never shows more than was executed, and shows all of it exactly if every
      fill fits into 32 bits. */
  lemma {:induction false} LoggedExactlyIfFits(taker: Resting, fills: seq<Fill>)
    ensures LogVolume(TradesOf(taker, fills)) <= FillVolume(fills)
    ensures LogVolume(TradesOf(taker, fills)) == FillVolume(fills) <==> Fits(fills)
  {
    if fills != [] {
      LoggedExactlyIfFits(taker, fills[1..]);
      assert TradesOf(taker, fills)[1..] == TradesOf(taker, fills[1..]);
      assert Fits(fills) <==> fills[0].qty < TRADE_QUANTITY_MODULUS && Fits(fills[1..]);
    }
  }

  /** The fills a command makes. */
  function FillsOf(s: State, c: Command): seq<Fill> {
    match c
    case New(o) => Sweep(s.book.On(o.side.Opposite()), o.side, o.price, o.qty).fills
    case Amend(o) =>
      (match Find(s.book, o.id)
       case None => []
       case Some(was) =>
         if was.side != o.side || was.price == o.price then []
         else Sweep(Remove(s.book, was).On(o.side.Opposite()), o.side, o.price, o.qty).fills)
    case Cancel(_, _) => []
    case Ignored => []
  }

  /** What a taker of this quantity gets from each crossing maker it comes to while it still wants
      something fits into the 32-bit quantity of a trade. */
  ghost predicate GiftsFit(queue: seq<Resting>, crossing: nat, qty: nat)
    requires crossing <= |queue|
  {
    forall i :: 0 <= i < crossing && Volume(queue[..i]) < qty ==>
      Min(queue[i].qty, qty - Volume(queue[..i])) < TRADE_QUANTITY_MODULUS
  }

  /** The same for an order, asked of the book before it is matched. */
  ghost predicate NewFits(book: Book, o: Resting) {
    var levels := book.On(o.side.Opposite());
    GiftsFit(Flatten(levels), CrossingCount(levels, o.side, o.price), o.qty)
  }

  /** And for a command: only a NEW and an amend that reprices are matched. */
  ghost predicate StepFits(s: State, c: Command) {
    match c
    case New(o) => NewFits(s.book, o)
    case Amend(o) =>
      (match Find(s.book, o.id)
       case None => true
       case Some(was) => was.side == o.side && was.price != o.price ==> NewFits(s.book, o))
    case Cancel(_, _) => true
    case Ignored => true
  }

  ghost predicate RunFits(cs: seq<Command>) {
    cs == [] || (RunFits(cs[..|cs| - 1]) && StepFits(Run(cs[..|cs| - 1]), cs[|cs| - 1]))
  }

  lemma {:induction false} VolumeUpTo(queue: seq<Resting>, i: nat, k: nat)
    requires i < k <= |queue|
    ensures Volume(queue[..i]) + queue[i].qty <= Volume(queue[..k])
  {
    assert queue[..k] == queue[..i] + ([queue[i]] + queue[i + 1..k]);
    VolumeConcat(queue[..i], [queue[i]] + queue[i + 1..k]);
  }

  lemma {:induction false} FullFillAt(orders: seq<Resting>, i: nat)
    requires i < |orders|
    ensures |FullFills(orders)| == |orders| && FullFills(orders)[i] == FillOf(orders[i], orders[i].qty)
  {
    if i > 0 {
      FullFillAt(orders[1..], i - 1);
    } else if |orders| > 1 {
      FullFillAt(orders[1..], 0);
    }
  }

  /** What the taker gets from maker `i`, by where it stops. */
  lemma {:induction false} GiftIsFill(queue: seq<Resting>, crossing: nat, qty: nat, k: nat, touched: bool, i: nat)
    requires StopsAt(queue, crossing, qty, k, touched) && i < crossing
    ensures var fills := Served(queue, crossing, qty, k, touched).value.fills;
            && |fills| == (if touched then k + 1 else k)
            && (if i < |fills| then
                  && Volume(queue[..i]) <= qty
                  && fills[i].qty == Min(queue[i].qty, qty - Volume(queue[..i]))
                else Volume(queue[..i]) >= qty)
  {
    hide Volume;
    if k > 0 {
      FullFillAt(queue[..k], if i < k then i else 0);
    }
    if i < k {
      VolumeUpTo(queue, i, k);
    } else if i > k {
      VolumeUpTo(queue, k, i);
    }
  }

  lemma {:induction false} ServedFits(queue: seq<Resting>, crossing: nat, qty: nat, k: nat, touched: bool)
    requires StopsAt(queue, crossing, qty, k, touched)
    ensures Fits(Served(queue, crossing, qty, k, touched).value.fills) <==> GiftsFit(queue, crossing, qty)
  {
    var fills := Served(queue, crossing, qty, k, touched).value.fills;
    hide Volume, Served;
    forall i | 0 <= i < crossing
      ensures i < |fills| && Volume(queue[..i]) < qty ==>
                fills[i].qty == Min(queue[i].qty, qty - Volume(queue[..i]))
      ensures i < |fills| && Volume(queue[..i]) >= qty ==> fills[i].qty == 0
      ensures i >= |fills| ==> Volume(queue[..i]) >= qty
      ensures |fills| <= crossing
    {
      GiftIsFill(queue, crossing, qty, k, touched, i);
    }
    if crossing == 0 {
      NoFillsNoCrossing(queue, crossing, qty, k, touched);
    }
  }

  lemma {:induction false} NoFillsNoCrossing(queue: seq<Resting>, crossing: nat, qty: nat, k: nat, touched: bool)
    requires StopsAt(queue, crossing, qty, k, touched) && crossing == 0
    ensures Served(queue, crossing, qty, k, touched).value.fills == []
  {
  }

  lemma {:induction false} SweepFits(levels: seq<Level>, taker: Side, limit: nat, qty: nat)
    ensures Fits(Sweep(levels, taker, limit, qty).fills)
       <==> GiftsFit(Flatten(levels), CrossingCount(levels, taker, limit), qty)
  {
    hide GiftsFit, Fits, Sweep, Flatten, CrossingCount, StopsAt;
    var k, touched := SweepIsServed(levels, taker, limit, qty);
    ServedFits(Flatten(levels), CrossingCount(levels, taker, limit), qty, k, touched);
  }

  /** The fills of a command fit exactly if the book before it says so. */
  lemma {:induction false} FillsFit(s: State, c: Command)
    ensures Fits(FillsOf(s, c)) <==> StepFits(s, c)
  {
    hide GiftsFit, Sweep, Flatten, CrossingCount, Find, Prune;
    match c
    case New(o) => SweepFits(s.book.On(o.side.Opposite()), o.side, o.price, o.qty);
    case Amend(o) =>
      SweepFits(s.book.On(o.side.Opposite()), o.side, o.price, o.qty);
      if Find(s.book, o.id).Some? && Find(s.book, o.id).value.side == o.side {
        assert Remove(s.book, Find(s.book, o.id).value).On(o.side.Opposite()) == s.book.On(o.side.Opposite());
      }
    case Cancel(_, _) =>
    case Ignored =>
  }

  lemma {:induction false} StepLogs(s: State, c: Command)
    ensures var log := Step(s, c).trades;
            && |s.trades| <= |log| && log[..|s.trades|] == s.trades
            && LogVolume(log) - LogVolume(s.trades) <= FlowOf(s, c).executed
            && (LogVolume(log) - LogVolume(s.trades) == FlowOf(s, c).executed <==> StepFits(s, c))
  {
    hide Sweep, Rest, Find, Prune, SetQuantity, LogVolume;
    FillsFit(s, c);
    var fills := FillsOf(s, c);
    assert FlowOf(s, c).executed == FillVolume(fills);
    if c.New? || c.Amend? {
      var added := TradesOf(c.order, fills);
      LoggedExactlyIfFits(c.order, fills);
      LogVolumeConcat(s.trades, added);
      assert Step(s, c).trades == s.trades + added;
    }
  }

  /** Over every run the log shows the whole executed quantity exactly if no command met makers that
      give it too much at once. */
  lemma {:induction false} RunLogs(cs: seq<Command>)
    ensures LogVolume(Run(cs).trades) <= RunFlow(cs).executed
    ensures LogVolume(Run(cs).trades) == RunFlow(cs).executed <==> RunFits(cs)
  {
    hide Step, FlowOf, StepFits;
    if cs != [] {
      var before := cs[..|cs| - 1];
      RunLogs(before);
      StepLogs(Run(before), cs[|cs| - 1]);
    }
  }

  /** In particular if no order arrives with 2^32 or more, however much rests. */
  lemma {:induction false} SmallOrdersFit(cs: seq<Command>)
    requires forall i :: 0 <= i < |cs| && (cs[i].New? || cs[i].Amend?) ==> cs[i].order.qty < TRADE_QUANTITY_MODULUS
    ensures RunFits(cs) && LogVolume(Run(cs).trades) == RunFlow(cs).executed
  {
    hide Step, FlowOf, Find, Flatten, CrossingCount, Volume;
    RunLogs(cs);
    if cs != [] {
      SmallOrdersFit(cs[..|cs| - 1]);
    }
  }

  /** The failing case: two orders of 2^32 trade in full and the log shows nothing. */
  lemma {:induction false} LargeTradeIsNotLogged(price: nat)
    ensures var q := TRADE_QUANTITY_MODULUS;
            var cs := [New(Resting(1, Sell, price, q)), New(Resting(2, Buy, price, q))];
            && Run(cs) == State(Book([], []), [Trade(2, price, 1, price, 0)])
            && RunFlow(cs).executed == q && LogVolume(Run(cs).trades) == 0
  {
    var q := TRADE_QUANTITY_MODULUS;
    var maker, taker := Resting(1, Sell, price, q), Resting(2, Buy, price, q);
    var cs := [New(maker), New(taker)];
    assert cs[..1] == [New(maker)] && cs[..1][..0] == [];
    assert Run(cs[..1][..0]) == Empty;
    assert Run(cs[..1]) == State(Book([], [Level(price, [maker])]), []) by {
      assert Find(Empty.book, 1) == None;
    }
    assert MatchList([maker], q) == Matched([], 0, [Fill(1, price, q)]);
    var fills := [Fill(1, price, q)];
    assert Sweep([Level(price, [maker])], Buy, price, q) == Swept([], 0, fills);
    assert TradesOf(taker, fills) == [Trade(2, price, 1, price, 0)];
    assert RunFlow(cs[..1][..0]).executed == 0;
    assert RunFlow(cs[..1]).executed == 0;
    assert FillVolume(fills) == q;
  }
}
