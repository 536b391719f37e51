/** What each command means to the two queues and the trade log, said without the functions that
    compute it, and what follows for whole runs: who trades with whom, and when an id can rest. */
module CommandEffects {
  import opened Words
  import opened OrderBook
  import opened SweepShape
  import opened BookInvariants
  import opened BookEffects
  import opened BookLedger

  // ---- Single trades ---------------------------------------------------------------------------

  /** The log has grown by `n` trades, the i-th between `o` and maker `i` of `q`, over what the maker had or
      the order still wanted, whichever is less, in 32 bits. */
  ghost predicate LogsMakers(before: seq<Trade>, after: seq<Trade>, q: seq<Resting>, o: Resting, n: nat) {
    && n <= |q| && |after| == |before| + n && after[..|before|] == before
    && forall i :: 0 <= i < n ==>
         var t := after[|before| + i];
         && Between(t, o, q[i])
         && Volume(q[..i]) <= o.qty
         && t.quantity == Min(q[i].qty, o.qty - Volume(q[..i])) % TRADE_QUANTITY_MODULUS
  }

  lemma {:induction false} FillIsMaker(q: seq<Resting>, crossing: nat, qty: nat, k: nat, touched: bool, i: nat)
    requires StopsAt(q, crossing, qty, k, touched)
    requires i < if touched then k + 1 else k
    ensures var fills := Served(q, crossing, qty, k, touched).value.fills;
      && |fills| == (if touched then k + 1 else k) <= crossing && Volume(q[..i]) <= qty
      && fills[i] == Fill(q[i].id, q[i].price, Min(q[i].qty, qty - Volume(q[..i])))
  {
    hide Volume;
    GiftIsFill(q, crossing, qty, k, touched, i);
    if k > 0 {
      FullFillAt(q[..k], if i < k then i else 0);
    }
  }

  lemma {:induction false} ServedLogs(log: seq<Trade>, q: seq<Resting>, crossing: nat, o: Resting, k: nat,
                                      touched: bool)
    requires StopsAt(q, crossing, o.qty, k, touched)
    ensures var fills := Served(q, crossing, o.qty, k, touched).value.fills;
      |fills| <= crossing && LogsMakers(log, log + TradesOf(o, fills), q, o, |fills|)
  {
    var fills := Served(q, crossing, o.qty, k, touched).value.fills;
    hide Volume, Served;
    if (if touched then k + 1 else k) > 0 {
      FillIsMaker(q, crossing, o.qty, k, touched, 0);
    } else {
      NothingServed(q, crossing, o.qty, k, touched);
    }
    var after := log + TradesOf(o, fills);
    assert after[..|log|] == log;
    forall i | 0 <= i < |fills|
      ensures Volume(q[..i]) <= o.qty
      ensures var t := after[|log| + i];
        && Between(t, o, q[i])
        && t.quantity == Min(q[i].qty, o.qty - Volume(q[..i])) % TRADE_QUANTITY_MODULUS
    {
      FillIsMaker(q, crossing, o.qty, k, touched, i);
      assert after[|log| + i] == TradeOf(o, fills[i]);
    }
  }

  lemma {:induction false} NothingServed(q: seq<Resting>, crossing: nat, qty: nat, k: nat, touched: bool)
    requires StopsAt(q, crossing, qty, k, touched) && k == 0 && !touched
    ensures Served(q, crossing, qty, k, touched).value.fills == []
  {
  }

  // ---- The commands ----------------------------------------------------------------------------

  /** An order that serves the opposite queue up to `k`, logs that, and rests what it still wants behind
      all of its price or better, unless its id rests already. */
  ghost predicate NewOutcome(s: State, t: State, o: Resting, k: nat, touched: bool) {
    var levels, own, q := s.book.On(o.side.Opposite()), Queue(s, o.side), Queue(s, o.side.Opposite());
    var served := Served(q, CrossingCount(levels, o.side, o.price), o.qty, k, touched);
    && served.Some?
    && Queue(t, o.side.Opposite()) == served.value.rest
    && LogsMakers(s.trades, t.trades, q, o, |served.value.fills|)
    && if served.value.qty == 0 || HasId(own, o.id) || HasId(served.value.rest, o.id)
       then Queue(t, o.side) == own
       else exists j: nat :: StandsAt(own, Queue(t, o.side), o.(qty := served.value.qty), j)
  }

  ghost predicate NewEffect(s: State, t: State, o: Resting) {
    exists k: nat, touched: bool :: NewOutcome(s, t, o, k, touched)
  }

  /** `after` is `q` without its element `j`, which has this id. */
  ghost predicate TakenOut(q: seq<Resting>, after: seq<Resting>, id: nat, j: nat) {
    j < |q| && q[j].id == id && after == q[..j] + q[j + 1..]
  }

  /** An id that rests on the named side leaves it, and is then in neither queue; otherwise nothing happens. */
  ghost predicate CancelEffect(s: State, t: State, id: nat, side: Side) {
    if HasId(Queue(s, side), id) then
      && (exists j: nat :: TakenOut(Queue(s, side), Queue(t, side), id, j))
      && Queue(t, side.Opposite()) == Queue(s, side.Opposite())
      && t.trades == s.trades
      && !HasId(Queue(t, Buy), id) && !HasId(Queue(t, Sell), id)
    else t == s
  }

  /** The order at place `j` gets the new quantity where it stands. */
  ghost predicate Requantified(s: State, t: State, o: Resting, j: nat) {
    var q := Queue(s, o.side);
    && j < |q| && q[j].id == o.id && q[j].price == o.price
    && Queue(t, o.side) == q[j := q[j].(qty := o.qty)]
    && Queue(t, o.side.Opposite()) == Queue(s, o.side.Opposite())
    && t.trades == s.trades
  }

  /** The order with this id is in the queue at another price. */
  predicate RestsElsewhere(q: seq<Resting>, o: Resting) {
    exists j :: 0 <= j < |q| && q[j].id == o.id && q[j].price != o.price
  }

  /** The order with the id has another price, and is cancelled and entered anew. */
  ghost predicate Reentered(s: State, m: State, t: State, o: Resting) {
    && RestsElsewhere(Queue(s, o.side), o)
    && CancelEffect(s, m, o.id, o.side) && NewEffect(m, t, o)
  }

  ghost predicate AmendEffect(s: State, t: State, o: Resting) {
    if HasId(Queue(s, o.side), o.id)
    then (exists j: nat :: Requantified(s, t, o, j)) || (exists m: State :: Reentered(s, m, t, o))
    else t == s
  }

  /** A sound book finds an id on the side whose queue has it. */
  lemma {:induction false} FoundHere(s: State, id: nat, side: Side)
    requires Good(s.book)
    ensures HasId(Queue(s, side), id) <==> Find(s.book, id).Some? && Find(s.book, id).value.side == side
    ensures HasId(Queue(s, side), id) <==> SideCount(s.book.On(side), id) > 0
    ensures Find(s.book, id).Some? ==> Find(s.book, id).value.id == id
  {
    hide Good, Flatten, HasId, Find;
    CountIsThere(s.book.On(side), id);
    FindIsCount(s.book, id);
    if Find(s.book, id).Some? {
      FoundOnItsSide(s.book, id);
    }
  }

  lemma {:induction false} CountIsThere(levels: seq<Level>, id: nat)
    ensures HasId(Flatten(levels), id) <==> SideCount(levels, id) > 0
  {
    FlattenCount(levels, id);
    FindInList(Flatten(levels), id);
    FoundIfThere(Flatten(levels), id);
  }

  lemma {:induction false} CancelHasEffect(s: State, id: nat, side: Side)
    requires Good(s.book)
    ensures CancelEffect(s, Step(s, Cancel(id, side)), id, side)
  {
    var t := Step(s, Cancel(id, side));
    var j := CancelTakesOneOut(s, id, side);
    FoundHere(s, id, side);
    hide HasId, Find, Good;
    if HasId(Queue(s, side), id) {
      assert TakenOut(Queue(s, side), Queue(t, side), id, j);
      CancelledIsGone(s, id, side);
    }
  }

  lemma {:induction false} CancelledIsGone(s: State, id: nat, side: Side)
    requires Good(s.book) && HasId(Queue(s, side), id)
    ensures var t := Step(s, Cancel(id, side)); !HasId(Queue(t, Buy), id) && !HasId(Queue(t, Sell), id)
  {
    hide HasId, Find, Good, Prune, Flatten;
    FoundHere(s, id, side);
    FoundOnItsSide(s.book, id);
    PruneCount(s.book.On(side), id, id);
    var t := Step(s, Cancel(id, side));
    CountIsThere(t.book.bids, id);
    CountIsThere(t.book.asks, id);
  }

  lemma {:induction false} NewHasEffect(s: State, o: Resting)
    requires Good(s.book)
    ensures NewEffect(s, Step(s, New(o)), o)
  {
    var t, opp := Step(s, New(o)), o.side.Opposite();
    var k, touched, j := NewServesThenRests(s, o);
    var q, c := Queue(s, opp), CrossingCount(s.book.On(opp), o.side, o.price);
    hide HasId, Find, Good, Sweep, Step, Flatten, CrossingCount, StandsAt;
    ServedLogs(s.trades, q, c, o, k, touched);
    SweptHasId(s, o, k, touched);
    assert NewOutcome(s, t, o, k, touched);
  }

  /** Whether the id rests after the sweep, asked of the queues. */
  lemma {:induction false} SweptHasId(s: State, o: Resting, k: nat, touched: bool)
    requires var levels := s.book.On(o.side.Opposite());
      Served(Queue(s, o.side.Opposite()), CrossingCount(levels, o.side, o.price), o.qty, k, touched).Some?
    requires var levels := s.book.On(o.side.Opposite());
      Served(Queue(s, o.side.Opposite()), CrossingCount(levels, o.side, o.price), o.qty, k, touched).value.rest
      == Flatten(Sweep(levels, o.side, o.price, o.qty).levels)
    ensures var levels := s.book.On(o.side.Opposite());
      var served := Served(Queue(s, o.side.Opposite()), CrossingCount(levels, o.side, o.price), o.qty, k, touched);
      var swept := s.book.With(o.side.Opposite(), Sweep(levels, o.side, o.price, o.qty).levels);
      Find(swept, o.id).Some? <==> HasId(Queue(s, o.side), o.id) || HasId(served.value.rest, o.id)
  {
    hide HasId, FindIn, Sweep, Flatten, CrossingCount, Served;
    var opp := o.side.Opposite();
    var swept := s.book.With(opp, Sweep(s.book.On(opp), o.side, o.price, o.qty).levels);
    assert swept.On(o.side) == s.book.On(o.side);
    FoundIfThere(Flatten(swept.bids) + Flatten(swept.asks), o.id);
    HasIdConcat(Flatten(swept.bids), Flatten(swept.asks), o.id);
  }

  lemma {:induction false} AmendHasEffect(s: State, o: Resting)
    requires Good(s.book)
    ensures AmendEffect(s, Step(s, Amend(o)), o)
  {
    var t := Step(s, Amend(o));
    var j := AmendInPlaceOrAnew(s, o);
    FoundHere(s, o.id, o.side);
    if HasId(Queue(s, o.side), o.id) {
      var was := Find(s.book, o.id).value;
      if was.price == o.price {
        assert Requantified(s, t, o, j);
      } else {
        var m := Step(s, Cancel(o.id, o.side));
        StepGood(s, Cancel(o.id, o.side));
        CancelHasEffect(s, o.id, o.side);
        NewHasEffect(m, o);
        var i := CancelTakesOneOut(s, o.id, o.side);
        hide CancelEffect, NewEffect, Step;
        assert Queue(s, o.side)[i].id == o.id && Queue(s, o.side)[i].price != o.price;
        assert Reentered(s, m, t, o);
      }
    }
  }

  // ---- When an id can rest ---------------------------------------------------------------------

  /** A command brings an id to a side only as a NEW on that side. */
  lemma {:induction false} StepBringsOnlyNew(s: State, c: Command, side: Side, id: nat)
    requires Good(s.book) && SideCount(Step(s, c).book.On(side), id) > 0
    ensures SideCount(s.book.On(side), id) > 0 || (c.New? && c.order.id == id && c.order.side == side)
  {
    hide Sweep, Rest, Prune, SetQuantity, Find, SideCount;
    match c
    case New(o) => NewBringsOnlyItself(s, o, side, id);
    case Cancel(gone, _) =>
      PruneCount(s.book.bids, gone, id);
      PruneCount(s.book.asks, gone, id);
      FindIsCount(s.book, gone);
    case Amend(o) =>
      if Find(s.book, o.id).Some? && Find(s.book, o.id).value.side == o.side {
        FoundOnItsSide(s.book, o.id);
        var was := Find(s.book, o.id).value;
        PruneCount(s.book.On(o.side), o.id, id);
        SetQuantityCount(s.book.On(o.side), o.id, o.qty, id);
        if was.price != o.price {
          NewBringsOnlyItself(s.(book := Remove(s.book, was)), o, side, id);
        }
      }
    case Ignored =>
  }

  lemma {:induction false} NewBringsOnlyItself(s: State, o: Resting, side: Side, id: nat)
    requires SideCount(HandleNew(s, o).book.On(side), id) > 0
    ensures SideCount(s.book.On(side), id) > 0 || (o.id == id && o.side == side)
  {
    hide Sweep, Rest, Find, SideCount;
    var opp := o.side.Opposite();
    var sw := Sweep(s.book.On(opp), o.side, o.price, o.qty);
    SweepCount(s.book.On(opp), o.side, o.price, o.qty, id);
    RestCount(s.book.On(o.side), o.(qty := sw.qty), id);
  }

  /** A NEW with this id and side is among the commands. */
  ghost predicate Arrived(cs: seq<Command>, id: nat, side: Side) {
    exists j :: 0 <= j < |cs| && cs[j].New? && cs[j].order.id == id && cs[j].order.side == side
  }

  lemma {:induction false} ArrivedBefore(cs: seq<Command>, id: nat, side: Side)
    requires cs != [] && Arrived(cs[..|cs| - 1], id, side)
    ensures Arrived(cs, id, side)
  {
    var front := cs[..|cs| - 1];
    var j :| 0 <= j < |front| && front[j].New? && front[j].order.id == id && front[j].order.side == side;
    assert cs[j] == front[j];
  }

  /** What rests on a side has arrived there. */
  lemma {:induction false} RestingHasArrived(cs: seq<Command>, id: nat, side: Side)
    requires SideCount(Run(cs).book.On(side), id) > 0
    ensures Arrived(cs, id, side)
  {
    hide Step;
    if cs != [] {
      var k := |cs| - 1;
      RunGood(cs[..k]);
      StepBringsOnlyNew(Run(cs[..k]), cs[k], side, id);
      if SideCount(Run(cs[..k]).book.On(side), id) > 0 {
        RestingHasArrived(cs[..k], id, side);
        ArrivedBefore(cs, id, side);
      } else {
        assert cs[k].New? && cs[k].order.id == id && cs[k].order.side == side;
      }
    }
  }

  /** No NEW from command `i` on has this id. */
  ghost predicate NoMore(cs: seq<Command>, i: nat, id: nat) {
    forall j :: i <= j < |cs| && cs[j].New? ==> cs[j].order.id != id
  }

  /** An id that does not rest on a side does not rest there until it arrives again. */
  lemma {:induction false} AbsentUntilNew(cs: seq<Command>, i: nat, id: nat, side: Side)
    requires i <= |cs| && SideCount(Run(cs[..i]).book.On(side), id) == 0 && NoMore(cs, i, id)
    ensures SideCount(Run(cs).book.On(side), id) == 0
  {
    hide Step;
    if i == |cs| {
      assert cs[..i] == cs;
    } else {
      var k := |cs| - 1;
      assert cs[..k][..i] == cs[..i];
      assert NoMore(cs[..k], i, id);
      AbsentUntilNew(cs[..k], i, id, side);
      RunGood(cs[..k]);
      if SideCount(Run(cs).book.On(side), id) > 0 {
        StepBringsOnlyNew(Run(cs[..k]), cs[k], side, id);
      }
    }
  }

  lemma {:induction false} CancelClears(s: State, id: nat, side: Side)
    requires Good(s.book) && SideCount(s.book.On(side.Opposite()), id) == 0
    ensures var t := Step(s, Cancel(id, side));
      SideCount(t.book.On(side), id) == 0 && SideCount(t.book.On(side.Opposite()), id) == 0
  {
    hide HasId, Flatten, SideCount, Good, Step, CancelEffect;
    FoundHere(s, id, side);
    var t := Step(s, Cancel(id, side));
    if HasId(Queue(s, side), id) {
      CancelledIsGone(s, id, side);
      CountIsThere(t.book.On(side), id);
      CountIsThere(t.book.On(side.Opposite()), id);
    } else {
      CancelLeaves(s, id, side);
    }
  }

  lemma {:induction false} CancelLeaves(s: State, id: nat, side: Side)
    requires Good(s.book) && !HasId(Queue(s, side), id)
    ensures Step(s, Cancel(id, side)) == s
  {
    CancelHasEffect(s, id, side);
  }

  lemma {:induction false} RunNext(cs: seq<Command>, i: nat)
    requires i < |cs|
    ensures Run(cs[..i + 1]) == Step(Run(cs[..i]), cs[i])
  {
    assert cs[..i + 1][..i] == cs[..i];
  }

  /** A cancelled id that had arrived on no other side does not rest until it arrives again. */
  lemma {:induction false} CancelledUntilNew(cs: seq<Command>, i: nat, id: nat, side: Side)
    requires i < |cs| && cs[i] == Cancel(id, side) && NoMore(cs, i, id)
    requires !Arrived(cs[..i], id, side.Opposite())
    ensures SideCount(Run(cs).book.On(side), id) == 0 && SideCount(Run(cs).book.On(side.Opposite()), id) == 0
  {
    hide Step, Run, SideCount, Good;
    RunGood(cs[..i]);
    if SideCount(Run(cs[..i]).book.On(side.Opposite()), id) > 0 {
      RestingHasArrived(cs[..i], id, side.Opposite());
    }
    RunNext(cs, i);
    CancelClears(Run(cs[..i]), id, side);
    AbsentUntilNew(cs, i + 1, id, side);
    AbsentUntilNew(cs, i + 1, id, side.Opposite());
  }

  // ---- Trades of a run -------------------------------------------------------------------------

  lemma {:induction false} CrossingPrices(levels: seq<Level>, side: Side, taker: Side, limit: nat, i: nat)
    requires AllPlaced(levels, side) && i < CrossingCount(levels, taker, limit)
    ensures Crosses(taker, Flatten(levels)[i].price, limit)
  {
    var front := levels[0].orders;
    assert Placed(levels[0], side);
    if i >= |front| {
      CrossingPrices(levels[1..], side, taker, limit, i - |front|);
    }
  }

  /** The trade is at a price both accept, and both ids have arrived on their sides. */
  ghost predicate Proper(cs: seq<Command>, t: Trade) {
    t.buyPrice >= t.sellPrice && Arrived(cs, t.buyId, Buy) && Arrived(cs, t.sellId, Sell)
  }

  /** The trades a NEW adds to a sound book, all of whose ids have arrived. */
  lemma {:induction false} NewTradesProper(cs: seq<Command>, s: State, o: Resting)
    requires Good(s.book) && Arrived(cs, o.id, o.side)
    requires forall id: nat :: SideCount(s.book.On(o.side.Opposite()), id) > 0 ==> Arrived(cs, id, o.side.Opposite())
    ensures var t := HandleNew(s, o);
      && |s.trades| <= |t.trades| && t.trades[..|s.trades|] == s.trades
      && forall i :: |s.trades| <= i < |t.trades| ==> Proper(cs, t.trades[i])
  {
    var opp := o.side.Opposite();
    var levels, q := s.book.On(opp), Queue(s, opp);
    var c := CrossingCount(levels, o.side, o.price);
    assert AllPlaced(levels, opp);
    var k, touched := SweepIsServed(levels, o.side, o.price, o.qty);
    hide Good, Flatten, CrossingCount, Sweep, Find, Rest, Served, Arrived;
    ServedLogs(s.trades, q, c, o, k, touched);
    var t := HandleNew(s, o);
    forall i | |s.trades| <= i < |t.trades| ensures Proper(cs, t.trades[i]) {
      var j := i - |s.trades|;
      assert Between(t.trades[i], o, q[j]);
      CrossingPrices(levels, opp, o.side, o.price, j);
      MakerRests(levels, j);
    }
  }

  lemma {:induction false} MakerRests(levels: seq<Level>, j: nat)
    requires j < |Flatten(levels)|
    ensures SideCount(levels, Flatten(levels)[j].id) > 0
  {
    var q := Flatten(levels);
    CountMember(q, q[j]);
    FlattenCount(levels, q[j].id);
  }

  /** Every trade of every run is at a price both sides accept, its buyer arrived as a buy and its seller
      as a sell. */
  lemma {:induction false} RunTradesProper(cs: seq<Command>)
    ensures forall i :: 0 <= i < |Run(cs).trades| ==> Proper(cs, Run(cs).trades[i])
  {
    if cs != [] {
      var k := |cs| - 1;
      var front, c := cs[..k], cs[k];
      var s, t := Run(front), Run(cs);
      RunTradesProper(front);
      forall i | 0 <= i < |s.trades| ensures Proper(cs, s.trades[i]) {
        ArrivedBefore(cs, s.trades[i].buyId, Buy);
        ArrivedBefore(cs, s.trades[i].sellId, Sell);
      }
      StepTradesProper(cs);
      hide Proper;
      forall i | 0 <= i < |t.trades| ensures Proper(cs, t.trades[i]) {
        assert i < |s.trades| ==> t.trades[i] == s.trades[i];
      }
    }
  }

  lemma {:induction false} StepTradesProper(cs: seq<Command>)
    requires cs != []
    ensures var s, t := Run(cs[..|cs| - 1]), Run(cs);
      && |s.trades| <= |t.trades| && t.trades[..|s.trades|] == s.trades
      && forall i :: |s.trades| <= i < |t.trades| ==> Proper(cs, t.trades[i])
  {
    var front, c := cs[..|cs| - 1], cs[|cs| - 1];
    assert Run(cs) == Step(Run(front), c);
    RunGood(front);
    hide Run, Proper, HandleNew, Find, SideCount, Prune, Good, HandleAmend, Arrived;
    match c
    case New(o) =>
      AllArrived(cs, o.side.Opposite());
      LastArrived(cs);
      NewTradesProper(cs, Run(front), o);
    case Amend(o) => AmendTradesProper(cs, o);
    case Cancel(_, _) =>
    case Ignored =>
  }

  lemma {:induction false} LastArrived(cs: seq<Command>)
    requires cs != [] && cs[|cs| - 1].New?
    ensures Arrived(cs, cs[|cs| - 1].order.id, cs[|cs| - 1].order.side)
  {
  }

  lemma {:induction false} AmendTradesProper(cs: seq<Command>, o: Resting)
    requires cs != []
    ensures var s := Run(cs[..|cs| - 1]);
      var t := HandleAmend(s, o);
      && |s.trades| <= |t.trades| && t.trades[..|s.trades|] == s.trades
      && forall i :: |s.trades| <= i < |t.trades| ==> Proper(cs, t.trades[i])
  {
    var s := Run(cs[..|cs| - 1]);
    RunGood(cs[..|cs| - 1]);
    hide Run, Proper, HandleNew, Find, SideCount, Prune, Good, Arrived;
    if Find(s.book, o.id).Some? && Find(s.book, o.id).value.side == o.side {
      var was := Find(s.book, o.id).value;
      var without := Remove(s.book, was);
      FoundOnItsSide(s.book, o.id);
      AllArrived(cs, o.side);
      AllArrived(cs, o.side.Opposite());
      RemoveGood(s.book, was);
      assert without.On(o.side.Opposite()) == s.book.On(o.side.Opposite());
      NewTradesProper(cs, s.(book := without), o);
    }
  }

  lemma {:induction false} AllArrived(cs: seq<Command>, side: Side)
    requires cs != []
    ensures forall id: nat :: SideCount(Run(cs[..|cs| - 1]).book.On(side), id) > 0 ==> Arrived(cs, id, side)
  {
    forall id: nat | SideCount(Run(cs[..|cs| - 1]).book.On(side), id) > 0 ensures Arrived(cs, id, side) {
      RestingHasArrived(cs[..|cs| - 1], id, side);
      ArrivedBefore(cs, id, side);
    }
  }
}
