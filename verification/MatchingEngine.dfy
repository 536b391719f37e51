/** The matching engine with its objects: orders and price levels on the heap, two price-ordered maps
    of levels, and an index from ids to the order and the level that holds it. Every method is proved
    to take the book one step of the value model. */
module Engine {
  import opened Words
  import opened OrderBook
  import opened BookInvariants
  import opened BookEffects
  import opened BookLedger
  import opened CommandEffects

  class Order {
    const id: nat
    const side: Side
    const price: nat
    var quantity: nat

    constructor (id: nat, side: Side, price: nat, quantity: nat)
      ensures View() == Resting(id, side, price, quantity)
    {
      this.id, this.side, this.price, this.quantity := id, side, price, quantity;
    }

    function View(): Resting
      reads this
    {
      Resting(id, side, price, quantity)
    }

    /** What the log and the price test need of a taker; its quantity is kept apart. */
    function Taker(): Resting {
      Resting(id, side, price, 0)
    }
  }

  class PriceLevel {
    var orders: seq<Order>

    constructor ()
      ensures orders == []
    {
      orders := [];
    }
  }

  /** One element of a side's flat map. */
  datatype Entry = Entry(price: nat, level: PriceLevel)

  datatype ReferencesBlock = ReferencesBlock(order: Order, level: PriceLevel)

  datatype Action = NewOrder | AmendOrder | CancelOrder | Recovery | RecoveryEnd


  type Index = map<nat, ReferencesBlock>

  function IdsOf(queue: seq<Resting>): set<nat> {
    set j | 0 <= j < |queue| :: queue[j].id
  }

  /** No order stands twice in the level, and the index leads from each id to its order and here. */
  ghost predicate Indexed(level: PriceLevel, index: Index)
    reads level, level.orders
  {
    && (forall j :: 0 <= j < |level.orders| ==>
          var o := level.orders[j];
          o.id in index && index[o.id] == ReferencesBlock(o, level))
    && (forall j, k :: 0 <= j < k < |level.orders| ==> level.orders[j] != level.orders[k])
  }

  /** The queue a level shows. */
  ghost function QueueOf(level: PriceLevel): (queue: seq<Resting>)
    reads level, level.orders
    ensures |queue| == |level.orders|
    ensures forall j :: 0 <= j < |queue| ==> queue[j] == level.orders[j].View()
  {
    seq(|level.orders|, j requires 0 <= j < |level.orders| reads level, level.orders => level.orders[j].View())
  }

  // ---- Matching one level, as values -----------------------------------------------------------

  /** What matching one level works on: the level's queue and list, the quantity the taker still
      wants, the index and the trade log. */
  datatype Moment = Moment(queue: seq<Resting>, wanted: nat, orders: seq<Order>, index: Index, log: seq<Trade>) {
    ghost predicate Ok() {
      |queue| == |orders|
    }
  }

  /** What the oldest maker gives. */
  function Given(at: Moment): (given: nat)
    requires at.queue != []
    ensures given <= at.wanted && given <= at.queue[0].qty
  {
    if at.queue[0].qty < at.wanted then at.queue[0].qty else at.wanted
  }

  /** One pass of the loop: the oldest maker leaves the list and the index, or keeps a part. */
  function After(taker: Resting, at: Moment): Moment
    requires at.Ok() && at.queue != []
  {
    var maker, given := at.queue[0], Given(at);
    var log := at.log + [TradeOf(taker, FillOf(maker, given))];
    if at.wanted < maker.qty then
      Moment([maker.(qty := maker.qty - given)] + at.queue[1..], 0, at.orders, at.index, log)
    else
      Moment(at.queue[1..], at.wanted - given, at.orders[1..], at.index - {maker.id}, log)
  }

  /** The ids of the orders one level loses. */
  function LostIds(queue: seq<Resting>, qty: nat): (lost: set<nat>)
    ensures lost <= IdsOf(queue)
  {
    MatchListIsShorter(queue, qty);
    IdsOf(queue[..|queue| - |MatchList(queue, qty).rest|])
  }

  lemma {:induction false} AfterOrders(taker: Resting, at: Moment)
    requires at.Ok() && at.queue != []
    ensures forall j :: 0 <= j < |After(taker, at).orders| ==> After(taker, at).orders[j] in at.orders
    ensures at.wanted >= at.queue[0].qty ==> |After(taker, at).orders| < |at.orders|
  {
  }

  /** The level matched to the end, in terms of the value model. */
  function Finish(taker: Resting, at: Moment): Moment
    requires at.Ok()
  {
    var m := MatchList(at.queue, at.wanted);
    MatchListIsShorter(at.queue, at.wanted);
    var k := |at.queue| - |m.rest|;
    Moment(m.rest, m.qty, at.orders[k..], at.index - LostIds(at.queue, at.wanted), at.log + TradesOf(taker, m.fills))
  }

  lemma {:induction false} MatchListIsShorter(queue: seq<Resting>, qty: nat)
    ensures |MatchList(queue, qty).rest| <= |queue|
  {
    MatchListLeaves(queue, qty);
  }

  lemma {:induction false} LessAndLess(index: Index, a: set<nat>, b: set<nat>)
    ensures index - a - b == index - (a + b)
  {
  }

  /** The taker runs dry on the oldest maker: the pass finishes the level. */
  lemma {:induction false} FinishStops(taker: Resting, at: Moment)
    requires at.Ok() && at.queue != [] && at.wanted < at.queue[0].qty
    ensures Finish(taker, at) == After(taker, at)
  {
    var fill := FillOf(at.queue[0], at.wanted);
    assert at.orders[0..] == at.orders;
    assert at.index - IdsOf(at.queue[..0]) == at.index;
    assert TradesOf(taker, [fill]) == [TradeOf(taker, fill)];
  }

  lemma {:induction false} TradesOfCons(taker: Resting, fill: Fill, fills: seq<Fill>, log: seq<Trade>)
    ensures log + TradesOf(taker, [fill] + fills) == log + [TradeOf(taker, fill)] + TradesOf(taker, fills)
  {
  }

  /** The oldest maker is consumed: the level finishes as it would from there. */
  lemma {:induction false} FinishGoesOn(taker: Resting, at: Moment)
    requires at.Ok() && at.queue != [] && at.wanted >= at.queue[0].qty
    ensures After(taker, at).Ok()
    ensures Finish(taker, at) == Finish(taker, After(taker, at))
  {
    var maker, next := at.queue[0], After(taker, at);
    var m := MatchList(next.queue, next.wanted);
    MatchListIsShorter(next.queue, next.wanted);
    var k := |next.queue| - |m.rest|;
    IdsOfNext(at.queue, k);
    LessAndLess(at.index, {maker.id}, IdsOf(next.queue[..k]));
    TradesOfCons(taker, FillOf(maker, maker.qty), m.fills, at.log);
    assert MatchList(at.queue, at.wanted) == m.(fills := [FillOf(maker, maker.qty)] + m.fills);
    hide MatchList, IdsOf, TradesOf, TradeOf;
    assert at.orders[1..][k..] == at.orders[k + 1..];
  }

  /** After one pass the level finishes as before, or is finished if the taker is dry. */
  lemma {:induction false} FinishStep(taker: Resting, at: Moment)
    requires at.Ok() && at.queue != []
    ensures After(taker, at).Ok()
    ensures Finish(taker, at) == if at.wanted < at.queue[0].qty then After(taker, at)
                                 else Finish(taker, After(taker, at))
  {
    if at.wanted < at.queue[0].qty {
      FinishStops(taker, at);
    } else {
      FinishGoesOn(taker, at);
    }
  }

  lemma {:induction false} IdsOfNext(queue: seq<Resting>, k: nat)
    requires k < |queue|
    ensures IdsOf(queue[..k + 1]) == {queue[0].id} + IdsOf(queue[1..][..k])
  {
    var whole, tail := queue[..k + 1], queue[1..][..k];
    assert forall j :: 0 <= j < k ==> whole[j + 1] == tail[j];
    forall id | id in IdsOf(whole) ensures id in {queue[0].id} + IdsOf(tail) {
      var j :| 0 <= j < |whole| && whole[j].id == id;
      assert j > 0 ==> tail[j - 1].id == id;
    }
    forall id | id in {queue[0].id} + IdsOf(tail) ensures id in IdsOf(whole) {
      if id in IdsOf(tail) {
        var j :| 0 <= j < |tail| && tail[j].id == id;
        assert whole[j + 1].id == id;
      } else {
        assert whole[0].id == id;
      }
    }
  }

  lemma {:induction false} FinishEmpty(taker: Resting, at: Moment)
    requires at.Ok() && at.queue == []
    ensures Finish(taker, at) == at
  {
    assert at.orders[0..] == at.orders && at.index - IdsOf([]) == at.index && at.log + [] == at.log;
  }

  // ---- Matching one side, as values ------------------------------------------------------------

  datatype SideMoment = SideMoment(view: seq<Level>, wanted: nat, index: Index, log: seq<Trade>)

  /** The ids of the orders a side loses to a taker. */
  function SweptIds(levels: seq<Level>, taker: Side, limit: nat, qty: nat): set<nat> {
    if levels == [] || qty == 0 || !Crosses(taker, levels[0].price, limit) then {}
    else LostIds(levels[0].orders, qty)
         + SweptIds(levels[1..], taker, limit, MatchList(levels[0].orders, qty).qty)
  }

  /** One level of the side matched; an emptied level is erased. */
  function AfterLevel(taker: Resting, at: SideMoment): SideMoment
    requires at.view != []
  {
    var m := MatchList(at.view[0].orders, at.wanted);
    SideMoment(if m.rest == [] then at.view[1..] else at.view[0 := Level(at.view[0].price, m.rest)],
               m.qty, at.index - LostIds(at.view[0].orders, at.wanted), at.log + TradesOf(taker, m.fills))
  }

  /** The side matched to the end, in terms of the value model. */
  function FinishSide(taker: Resting, at: SideMoment): SideMoment {
    var sw := Sweep(at.view, taker.side, taker.price, at.wanted);
    SideMoment(sw.levels, sw.qty, at.index - SweptIds(at.view, taker.side, taker.price, at.wanted),
               at.log + TradesOf(taker, sw.fills))
  }

  lemma {:induction false} TradesOfConcat(taker: Resting, a: seq<Fill>, b: seq<Fill>, log: seq<Trade>)
    ensures log + TradesOf(taker, a + b) == log + TradesOf(taker, a) + TradesOf(taker, b)
  {
  }

  lemma {:induction false} NoTrades(taker: Resting, log: seq<Trade>)
    ensures log + TradesOf(taker, []) == log
  {
  }

  /** The loop over the side is over: nothing more changes. */
  lemma {:induction false} SideEnds(taker: Resting, at: SideMoment)
    requires at.view == [] || at.wanted == 0 || !Crosses(taker.side, at.view[0].price, taker.price)
    ensures FinishSide(taker, at) == at
  {
    NoTrades(taker, at.log);
    assert at.index - {} == at.index;
  }

  lemma {:induction false} SideStep(taker: Resting, at: SideMoment)
    requires at.view != [] && at.wanted > 0 && Crosses(taker.side, at.view[0].price, taker.price)
    ensures var m := MatchList(at.view[0].orders, at.wanted);
            FinishSide(taker, at)
            == if m.rest == [] then FinishSide(taker, AfterLevel(taker, at)) else AfterLevel(taker, at)
  {
    var m := MatchList(at.view[0].orders, at.wanted);
    MatchListLeaves(at.view[0].orders, at.wanted);
    var lost := LostIds(at.view[0].orders, at.wanted);
    var tail := Sweep(at.view[1..], taker.side, taker.price, m.qty);
    TradesOfConcat(taker, m.fills, tail.fills, at.log);
    LessAndLess(at.index, lost, SweptIds(at.view[1..], taker.side, taker.price, m.qty));
    if m.rest != [] {
      NoTrades(taker, at.log + TradesOf(taker, m.fills));
      assert at.view[0 := Level(at.view[0].price, m.rest)] == [Level(at.view[0].price, m.rest)] + at.view[1..];
      assert tail == Swept(at.view[1..], 0, []);
      assert lost + {} == lost;
      assert at.index - lost - {} == at.index - lost;
    }
  }

  // ---- Which ids a sweep takes out of the index ------------------------------------------------

  lemma {:induction false} CountSameIds(a: seq<Resting>, b: seq<Resting>, id: nat)
    requires |a| == |b| && forall j :: 0 <= j < |a| ==> a[j].id == b[j].id
    ensures Count(a, id) == Count(b, id)
  {
    if a != [] {
      CountSameIds(a[1..], b[1..], id);
    }
  }

  lemma {:induction false} CountIsIn(queue: seq<Resting>, id: nat)
    ensures Count(queue, id) > 0 <==> id in IdsOf(queue)
  {
    if queue != [] {
      CountIsIn(queue[1..], id);
      assert queue[..1] == [queue[0]] && queue[1..][..|queue| - 1] == queue[1..] && queue[..|queue|] == queue;
      IdsOfNext(queue, |queue| - 1);
    }
  }

  lemma {:induction false} LostIdsCount(queue: seq<Resting>, qty: nat, id: nat)
    requires Count(queue, id) <= 1
    ensures Count(MatchList(queue, qty).rest, id) == if id in LostIds(queue, qty) then 0 else Count(queue, id)
    ensures id in LostIds(queue, qty) ==> Count(queue, id) == 1
  {
    var rest := MatchList(queue, qty).rest;
    MatchListLeaves(queue, qty);
    var k := |queue| - |rest|;
    hide MatchList, Count;
    CountSameIds(rest, queue[k..], id);
    CountIsIn(queue[..k], id);
    CountConcat(queue[..k], queue[k..], id);
    assert queue[..k] + queue[k..] == queue;
  }

  /** A sweep removes exactly the swept ids. */
  lemma {:induction false} SweptIdsCount(levels: seq<Level>, taker: Side, limit: nat, qty: nat, id: nat)
    requires SideCount(levels, id) <= 1
    ensures SideCount(Sweep(levels, taker, limit, qty).levels, id)
            == if id in SweptIds(levels, taker, limit, qty) then 0 else SideCount(levels, id)
    ensures id in SweptIds(levels, taker, limit, qty) ==> SideCount(levels, id) == 1
  {
    if levels != [] && qty > 0 && Crosses(taker, levels[0].price, limit) {
      var m := MatchList(levels[0].orders, qty);
      LostIdsCount(levels[0].orders, qty, id);
      SweptIdsCount(levels[1..], taker, limit, m.qty, id);
      var tail := Sweep(levels[1..], taker, limit, m.qty).levels;
      assert ([Level(levels[0].price, m.rest)] + tail)[1..] == tail;
    }
  }

  // ---- One side on the heap --------------------------------------------------------------------

  ghost function LevelsOf(entries: seq<Entry>): set<PriceLevel> {
    set e | e in entries :: e.level
  }

  ghost function OrdersIn(levels: set<PriceLevel>): set<Order>
    reads levels
  {
    set l, o | l in levels && o in l.orders :: o
  }

  lemma {:induction false} InFrame(entries: seq<Entry>, i: nat)
    requires i < |entries|
    ensures entries[i].level in LevelsOf(entries)
    ensures forall o :: o in entries[i].level.orders ==> o in OrdersIn(LevelsOf(entries))
  {
    assert entries[i] in entries;
  }

  /** The side as a value. */
  ghost function ViewOf(entries: seq<Entry>): (view: seq<Level>)
    reads LevelsOf(entries), OrdersIn(LevelsOf(entries))
    ensures |view| == |entries|
    ensures forall i :: 0 <= i < |view| ==> view[i] == LevelAt(entries, i)
  {
    seq(|entries|, i requires 0 <= i < |entries| reads LevelsOf(entries), OrdersIn(LevelsOf(entries)) =>
          LevelAt(entries, i))
  }

  ghost function LevelAt(entries: seq<Entry>, i: nat): Level
    requires i < |entries|
    reads LevelsOf(entries), OrdersIn(LevelsOf(entries))
  {
    InFrame(entries, i);
    Level(entries[i].price, QueueOf(entries[i].level))
  }

  ghost predicate IndexedAt(entries: seq<Entry>, i: nat, index: Index)
    requires i < |entries|
    reads LevelsOf(entries), OrdersIn(LevelsOf(entries))
  {
    InFrame(entries, i);
    Indexed(entries[i].level, index)
  }

  ghost predicate SideIndexed(entries: seq<Entry>, index: Index)
    reads LevelsOf(entries), OrdersIn(LevelsOf(entries))
  {
    && (forall i {:trigger entries[i]} :: 0 <= i < |entries| ==> IndexedAt(entries, i, index))
    && (forall i, j :: 0 <= i < j < |entries| ==> entries[i].level != entries[j].level)
  }

  /** A new level with nothing in it. */
  lemma {:induction false} OpenedLevel(entries: seq<Entry>, view: seq<Level>, i: nat, entry: Entry, index: Index)
    requires SideShows(entries, index) == Some(view) && i <= |entries|
    requires entry.level !in LevelsOf(entries) && entry.level.orders == []
    ensures SideShows(entries[..i] + [entry] + entries[i..], index)
            == Some(view[..i] + [Level(entry.price, [])] + view[i..])
    ensures LevelsOf(entries[..i] + [entry] + entries[i..]) == LevelsOf(entries) + {entry.level}
  {
    ShowsLevels(entries, view, index);
    hide SideShows;
    var after := entries[..i] + [entry] + entries[i..];
    var shown := view[..i] + [Level(entry.price, [])] + view[i..];
    forall j | 0 <= j < |after|
      ensures Level(after[j].price, QueueOf(after[j].level)) == shown[j] && Indexed(after[j].level, index)
    {
      if j != i {
        var k := if j < i then j else j - 1;
        assert after[j] == entries[k] && shown[j] == view[k] && entries[k] in entries;
      }
    }
    forall j, k | 0 <= j < k < |after| ensures after[j].level != after[k].level {
      assert j != i ==> after[j] in entries;
      assert k != i ==> after[k] in entries;
    }
    ShowsAgain(after, shown, index);
    WiderLevels(entries, i, entry);
  }

  lemma {:induction false} WiderLevels(entries: seq<Entry>, i: nat, entry: Entry)
    requires i <= |entries|
    ensures LevelsOf(entries[..i] + [entry] + entries[i..]) == LevelsOf(entries) + {entry.level}
  {
    assert entries == entries[..i] + entries[i..];
  }

  /** Where a flat map has, or would insert, a price. */
  function LowerBound(entries: seq<Entry>, side: Side, price: nat): (i: nat)
    ensures i <= |entries|
    ensures forall j :: 0 <= j < i ==> Better(side, entries[j].price, price)
    ensures i < |entries| ==> !Better(side, entries[i].price, price)
  {
    if entries == [] || !Better(side, entries[0].price, price) then 0
    else 1 + LowerBound(entries[1..], side, price)
  }

  /** Resting an order changes or inserts the level at that position. */
  lemma {:induction false} RestAt(view: seq<Level>, o: Resting, i: nat)
    requires i <= |view|
    requires forall j :: 0 <= j < i ==> Better(o.side, view[j].price, o.price)
    requires i < |view| ==> !Better(o.side, view[i].price, o.price)
    ensures Rest(view, o)
            == if i < |view| && view[i].price == o.price
               then view[i := Level(o.price, view[i].orders + [o])]
               else view[..i] + [Level(o.price, [o])] + view[i..]
  {
    if i > 0 {
      var tail := view[1..];
      assert Better(o.side, view[0].price, o.price);
      assert Rest(view, o) == [view[0]] + Rest(tail, o);
      hide Rest, Better;
      RestAt(tail, o, i - 1);
      if i < |view| && view[i].price == o.price {
        var grown := Level(o.price, view[i].orders + [o]);
        assert [view[0]] + tail[i - 1 := grown] == view[i := grown];
      } else {
        var added := [Level(o.price, [o])];
        assert [view[0]] + tail[..i - 1] == view[..i];
        assert [view[0]] + (tail[..i - 1] + added + tail[i - 1..]) == view[..i] + added + view[i..];
      }
    } else {
      var added := [Level(o.price, [o])];
      assert view[..0] + added + view[0..] == added + view;
      assert view != [] && view[0].price == o.price ==>
               view[0 := Level(o.price, view[0].orders + [o])] == [Level(o.price, view[0].orders + [o])] + view[1..];
    }
  }

  /** The value of a side whose levels the index knows. */
  ghost function SideShows(entries: seq<Entry>, index: Index): Option<seq<Level>>
    reads LevelsOf(entries), OrdersIn(LevelsOf(entries))
  {
    if SideIndexed(entries, index) then Some(ViewOf(entries)) else None
  }

  lemma {:induction false} ShowsLevels(entries: seq<Entry>, view: seq<Level>, index: Index)
    requires SideShows(entries, index) == Some(view)
    ensures |entries| == |view|
    ensures forall i :: 0 <= i < |entries| ==> Level(entries[i].price, QueueOf(entries[i].level)) == view[i]
    ensures forall i, j :: 0 <= i < j < |entries| ==> entries[i].level != entries[j].level
    ensures forall l :: l in LevelsOf(entries) ==> Indexed(l, index)
    ensures MadeOf(entries, LevelsOf(entries), OrdersIn(LevelsOf(entries)))
  {
    assert forall i :: 0 <= i < |entries| ==> entries[i] in entries;
    forall i | 0 <= i < |entries|
      ensures Level(entries[i].price, QueueOf(entries[i].level)) == view[i]
    {
      assert LevelAt(entries, i) == view[i];
    }
  }

  /** A side whose levels still show the same queues shows the same value. */
  lemma {:induction false} ShowsAgain(entries: seq<Entry>, view: seq<Level>, index: Index)
    requires |entries| == |view|
    requires forall i :: 0 <= i < |entries| ==>
               Level(entries[i].price, QueueOf(entries[i].level)) == view[i] && Indexed(entries[i].level, index)
    requires forall i, j :: 0 <= i < j < |entries| ==> entries[i].level != entries[j].level
    ensures SideShows(entries, index) == Some(view)
  {
    forall i | 0 <= i < |entries| ensures IndexedAt(entries, i, index) && LevelAt(entries, i) == view[i] {}
    assert ViewOf(entries) == view;
  }

  type GoodBook = b: Book | Good(b) witness Book([], [])

  ghost function RestingIds(book: Book): set<nat> {
    set o | o in Flatten(book.bids) + Flatten(book.asks) :: o.id
  }

  lemma {:induction false} RestingIdsCount(book: Book, id: nat)
    ensures id in RestingIds(book) <==> BookCount(book, id) > 0
    ensures id in RestingIds(book) <==> Find(book, id).Some?
  {
    var all := Flatten(book.bids) + Flatten(book.asks);
    FindIsCount(book, id);
    if id in RestingIds(book) {
      var o :| o in all && o.id == id;
      CountMember(all, o);
      CountConcat(Flatten(book.bids), Flatten(book.asks), id);
      FlattenCount(book.bids, id);
      FlattenCount(book.asks, id);
    }
  }

  /** Taking the swept ids out of the index keeps it in step with the swept book. */
  lemma {:induction false} SweptKeys(book: GoodBook, index: Index, taker: Side, limit: nat, qty: nat)
    requires index.Keys == RestingIds(book)
    ensures var opposite := book.On(taker.Opposite());
            (index - SweptIds(opposite, taker, limit, qty)).Keys
            == RestingIds(book.With(taker.Opposite(), Sweep(opposite, taker, limit, qty).levels))
  {
    var opposite := book.On(taker.Opposite());
    var after := book.With(taker.Opposite(), Sweep(opposite, taker, limit, qty).levels);
    var swept := SweptIds(opposite, taker, limit, qty);
    forall id: nat ensures id in RestingIds(book) && id !in swept <==> id in RestingIds(after) {
      assert BookCount(book, id) <= 1;
      RestingIdsCount(book, id);
      RestingIdsCount(after, id);
      SweptIdsCount(opposite, taker, limit, qty, id);
    }
    assert (index - swept).Keys == RestingIds(after);
  }

  lemma {:induction false} RestedKeys(book: GoodBook, o: Resting)
    ensures RestingIds(book.With(o.side, Rest(book.On(o.side), o))) == RestingIds(book) + {o.id}
  {
    var after := book.With(o.side, Rest(book.On(o.side), o));
    forall id: nat ensures id in RestingIds(after) <==> id in RestingIds(book) || id == o.id {
      RestingIdsCount(book, id);
      RestingIdsCount(after, id);
      RestCount(book.On(o.side), o, id);
    }
  }

  lemma {:induction false} TakerTrades(o: Resting, fills: seq<Fill>)
    ensures TradesOf(o.(qty := 0), fills) == TradesOf(o, fills)
  {
  }

  lemma {:induction false} WithoutAt(orders: seq<Resting>, j: nat)
    requires j < |orders| && forall k :: 0 <= k < |orders| && k != j ==> orders[k].id != orders[j].id
    ensures Without(orders, orders[j].id) == orders[..j] + orders[j + 1..]
  {
    if j == 0 {
      CountIsIn(orders[1..], orders[0].id);
      WithoutNone(orders[1..], orders[0].id);
    } else {
      WithoutAt(orders[1..], j - 1);
      assert [orders[0]] + (orders[1..][..j - 1] + orders[1..][j..]) == orders[..j] + orders[j + 1..];
    }
  }

  lemma {:induction false} PruneNone(view: seq<Level>, id: nat)
    requires SideCount(view, id) == 0 && NoEmptyLevel(view)
    ensures Prune(view, id) == view
  {
    if view != [] {
      var behind := view[1..];
      PruneNone(behind, id);
      PruneKeepsFront(view, id);
      assert view == [view[0]] + behind;
    }
  }

  /** A level without the id stays as it is. */
  lemma {:induction false} PruneKeepsFront(view: seq<Level>, id: nat)
    requires view != [] && Count(view[0].orders, id) == 0 && view[0].orders != []
    ensures Prune(view, id) == [view[0]] + Prune(view[1..], id)
  {
    WithoutNone(view[0].orders, id);
  }

  /** Pruning an id that rests in level `i` alone changes that level, or drops it. */
  lemma {:induction false} PruneAt(view: seq<Level>, i: nat, o: Resting)
    requires i < |view| && o in view[i].orders && SideCount(view, o.id) == 1 && NoEmptyLevel(view)
    ensures Prune(view, o.id) == LevelLeft(view, i, Without(view[i].orders, o.id))
  {
    CountMember(view[i].orders, o);
    if i == 0 {
      PruneNone(view[1..], o.id);
      hide Without, SideCount, Count;
      FrontLeft(view, Without(view[0].orders, o.id));
    } else {
      var tail := view[1..];
      assert tail[i - 1] == view[i] && NoEmptyLevel(tail);
      CountInside(tail, i - 1, o.id);
      PruneKeepsFront(view, o.id);
      hide Without, Prune, Count;
      PruneAt(tail, i - 1, o);
      LevelLeftBehind(view, i, Without(view[i].orders, o.id));
    }
  }

  lemma {:induction false} FrontLeft(view: seq<Level>, kept: seq<Resting>)
    requires view != []
    ensures LevelLeft(view, 0, kept) == if kept == [] then view[1..] else [Level(view[0].price, kept)] + view[1..]
  {
    assert view[..0] + view[1..] == view[1..];
  }

  /** The side when level `i` has become `kept`, be that empty or not. */
  function LevelLeft(view: seq<Level>, i: nat, kept: seq<Resting>): seq<Level>
    requires i < |view|
  {
    if kept == [] then view[..i] + view[i + 1..] else view[i := Level(view[i].price, kept)]
  }

  lemma {:induction false} LevelLeftBehind(view: seq<Level>, i: nat, kept: seq<Resting>)
    requires 0 < i < |view|
    ensures LevelLeft(view, i, kept) == [view[0]] + LevelLeft(view[1..], i - 1, kept)
  {
    if kept == [] {
      assert [view[0]] + (view[1..][..i - 1] + view[1..][i..]) == view[..i] + view[i + 1..];
    } else {
      var changed := Level(view[i].price, kept);
      assert [view[0]] + view[1..][i - 1 := changed] == view[i := changed];
    }
  }

  lemma {:induction false} CountInside(view: seq<Level>, i: nat, id: nat)
    requires i < |view|
    ensures Count(view[i].orders, id) <= SideCount(view, id)
  {
    if i > 0 {
      CountInside(view[1..], i - 1, id);
    }
  }

  /** A side without one of its levels. */
  lemma {:induction false} DroppedLevel(entries: seq<Entry>, view: seq<Level>, i: nat, index: Index)
    requires SideShows(entries, index) == Some(view) && i < |entries|
    ensures SideShows(entries[..i] + entries[i + 1..], index) == Some(view[..i] + view[i + 1..])
    ensures LevelsOf(entries[..i] + entries[i + 1..]) <= LevelsOf(entries)
  {
    var after, shown := entries[..i] + entries[i + 1..], view[..i] + view[i + 1..];
    forall j | 0 <= j < |after|
      ensures Level(after[j].price, QueueOf(after[j].level)) == shown[j] && Indexed(after[j].level, index)
    {
      var k := if j < i then j else j + 1;
      assert after[j] == entries[k] && shown[j] == view[k];
      assert IndexedAt(entries, k, index);
    }
    ShowsAgain(after, shown, index);
  }

  lemma {:induction false} RemovedKeys(book: GoodBook, o: Resting)
    requires Find(book, o.id) == Some(o)
    ensures RestingIds(Remove(book, o)) == RestingIds(book) - {o.id}
  {
    var after := Remove(book, o);
    FoundOnItsSide(book, o.id);
    forall id: nat ensures id in RestingIds(after) <==> id in RestingIds(book) && id != o.id {
      RestingIdsCount(book, id);
      RestingIdsCount(after, id);
      PruneCount(book.On(o.side), o.id, id);
    }
  }

  lemma {:induction false} GoodSide(book: GoodBook, side: Side)
    ensures SideOk(book.On(side), side)
  {
  }

  lemma {:induction false} RequantifiedKeys(book: GoodBook, side: Side, changed: nat, qty: nat)
    ensures RestingIds(book.With(side, SetQuantity(book.On(side), changed, qty))) == RestingIds(book)
  {
    var after := book.With(side, SetQuantity(book.On(side), changed, qty));
    forall id: nat ensures id in RestingIds(after) <==> id in RestingIds(book) {
      RestingIdsCount(book, id);
      RestingIdsCount(after, id);
      SetQuantityCount(book.On(side), changed, qty, id);
    }
  }

  function CommandOf(o: Resting, action: Action): Command {
    match action
    case NewOrder => New(o)
    case CancelOrder => Cancel(o.id, o.side)
    case AmendOrder => Amend(o)
    case Recovery => Ignored
    case RecoveryEnd => Ignored
  }

  lemma {:induction false} PruneInBook(book: GoodBook, side: Side, i: nat, o: Resting)
    requires i < |book.On(side)| && o in book.On(side)[i].orders && SideCount(book.On(side), o.id) == 1
    ensures Prune(book.On(side), o.id) == LevelLeft(book.On(side), i, Without(book.On(side)[i].orders, o.id))
  {
    PruneAt(book.On(side), i, o);
  }

  /** A price that is in the map is found where it is. */
  lemma {:induction false} BoundIs(entries: seq<Entry>, book: GoodBook, side: Side, i: nat)
    requires |entries| == |book.On(side)| && i < |entries|
    requires forall j :: 0 <= j < |entries| ==> entries[j].price == book.On(side)[j].price
    ensures LowerBound(entries, side, entries[i].price) == i
  {
    GoodSide(book, side);
  }

  ghost function HeldIn(index: Index): set<Order> {
    set id | id in index :: index[id].order
  }

  lemma {:induction false} HeldLess(index: Index, gone: set<nat>)
    ensures HeldIn(index - gone) <= HeldIn(index)
  {
  }

  lemma {:induction false} HeldMore(index: Index, id: nat, block: ReferencesBlock)
    ensures HeldIn(index[id := block]) <= HeldIn(index) + {block.order}
  {
  }

  lemma {:induction false} HeldHas(index: Index, id: nat)
    requires id in index
    ensures index[id].order in HeldIn(index)
  {
  }

  lemma {:induction false} CancelledIdFree(book: GoodBook, trades: seq<Trade>, id: nat, side: Side)
    ensures HasId(Queue(State(book, trades), side), id) ==>
              id !in RestingIds(Step(State(book, trades), Cancel(id, side)).book)
  {
    var s := State(book, trades);
    if HasId(Queue(s, side), id) {
      CancelledIsGone(s, id, side);
      var after := Step(s, Cancel(id, side)).book;
      hide Step;
      FoundIfThere(Flatten(after.bids) + Flatten(after.asks), id);
      HasIdConcat(Flatten(after.bids), Flatten(after.asks), id);
      RestingIdsCount(after, id);
    }
  }

  /** What an action does to the two queues and the log. */
  ghost predicate Took(before: State, after: State, o: Resting, action: Action) {
    match action
    case NewOrder => NewEffect(before, after, o)
    case CancelOrder => CancelEffect(before, after, o.id, o.side)
    case AmendOrder => AmendEffect(before, after, o)
    case Recovery => after == before
    case RecoveryEnd => after == before
  }

  lemma {:induction false} ActionTakes(s: State, o: Resting, action: Action)
    requires Good(s.book)
    ensures Took(s, Step(s, CommandOf(o, action)), o, action)
  {
    hide NewEffect, CancelEffect, AmendEffect, Good;
    match action
    case NewOrder => NewHasEffect(s, o);
    case CancelOrder => CancelHasEffect(s, o.id, o.side);
    case AmendOrder => AmendHasEffect(s, o);
    case Recovery =>
    case RecoveryEnd =>
  }

  class MatchingEngine {
    var orderByID: Index
    var bids: seq<Entry>
    var asks: seq<Entry>
    var trades: seq<Trade>

    ghost var book: GoodBook

    constructor ()
      ensures Valid() && State(book, trades) == Empty && Levels() == {} && Held() == {}
    {
      orderByID, bids, asks, trades := map[], [], [], [];
      book := Book([], []);
    }

    function Entries(side: Side): seq<Entry>
      reads this
    {
      if side.Buy? then bids else asks
    }

    /** The two maps show the book, no level serves twice, every order is indexed with the level that
        holds it, and the index has exactly the ids that rest. */
    ghost predicate Valid()
      reads this, LevelsOf(bids), OrdersIn(LevelsOf(bids)), LevelsOf(asks), OrdersIn(LevelsOf(asks))
    {
      && SideShows(bids, orderByID) == Some(book.bids)
      && SideShows(asks, orderByID) == Some(book.asks)
      && LevelsOf(bids) !! LevelsOf(asks)
      && orderByID.Keys == RestingIds(book)
    }

    ghost function Levels(): set<PriceLevel>
      reads this
    {
      LevelsOf(bids) + LevelsOf(asks)
    }

    /** The orders in the book, as the index knows them. */
    ghost function Held(): set<Order>
      reads this
    {
      HeldIn(orderByID)
    }

    /** What matching `level` against `order` is about now, if the index knows the level. */
    ghost function Now(order: Order, level: PriceLevel): (at: Option<Moment>)
      reads this, order, level, level.orders
      ensures at.Some? ==> at.value.Ok() && at.value.orders == level.orders
    {
      if Indexed(level, orderByID)
      then Some(Moment(QueueOf(level), order.quantity, level.orders, orderByID, trades))
      else None
    }

    /** The body of the loop over one level: trade with its oldest order, and say whether to stop. */
    method MatchFront(order: Order, matched: Order, level: PriceLevel, ghost at: Moment) returns (stop: bool)
      requires Now(order, level) == Some(at)
      requires level.orders != [] && level.orders[0] == matched && order !in level.orders
      modifies order`quantity, level`orders, matched`quantity, `orderByID, `trades
      ensures stop == (at.wanted < at.queue[0].qty)
      ensures |trades| == |old(trades)| + 1 && trades[..|old(trades)|] == old(trades)
      ensures Between(trades[|old(trades)|], order.Taker(), at.queue[0])
      ensures Now(order, level) == Some(After(order.Taker(), at))
    {
      ghost var given := Given(at);
      var quantity := if matched.quantity < order.quantity then matched.quantity else order.quantity;
      var logged := quantity % TRADE_QUANTITY_MODULUS;
      trades := trades + [if order.side.Sell?
                          then Trade(matched.id, matched.price, order.id, order.price, logged)
                          else Trade(order.id, order.price, matched.id, matched.price, logged)];
      stop := order.quantity < matched.quantity;
      if !stop {
        order.quantity := order.quantity - matched.quantity;
        matched.quantity := 0;
        orderByID := orderByID - {matched.id};
        level.orders := level.orders[1..];
        assert Indexed(level, orderByID);
        assert QueueOf(level) == at.queue[1..];
      } else {
        matched.quantity := matched.quantity - order.quantity;
        order.quantity := 0;
        assert QueueOf(level) == [matched.View()] + at.queue[1..];
      }
    }

    /** Match `order` against one level, oldest order first. */
    method MatchOrderList(order: Order, level: PriceLevel, ghost at: Moment, ghost orders: set<Order>)
      returns (levelEmpty: bool)
      requires Now(order, level) == Some(at)
      requires order !in orders && forall j :: 0 <= j < |level.orders| ==> level.orders[j] in orders
      modifies order`quantity, level`orders, orders, `orderByID, `trades
      ensures Now(order, level) == Some(Finish(order.Taker(), at))
      ensures levelEmpty == (level.orders == [])
      ensures forall j :: 0 <= j < |level.orders| ==> level.orders[j] in orders
    {
      hide Finish, After, Now;
      ghost var taker, now := order.Taker(), at;
      var stop := false;
      while !stop && level.orders != []
        invariant Now(order, level) == Some(now) && level.orders == now.orders
        invariant forall j :: 0 <= j < |now.orders| ==> now.orders[j] in orders
        invariant Finish(taker, at) == if stop then now else Finish(taker, now)
        decreases if stop then 0 else 1 + |now.orders|
      {
        FinishStep(taker, now);
        AfterOrders(taker, now);
        stop := MatchFront(order, level.orders[0], level, now);
        now := After(taker, now);
      }
      if !stop {
        FinishEmpty(taker, now);
      }
      levelEmpty := level.orders == [];
    }

    /** Matching one level leaves every other indexed level as it is. */
    method MatchLevel(order: Order, level: PriceLevel, ghost at: Moment, ghost others: set<PriceLevel>)
      returns (levelEmpty: bool)
      requires Now(order, level) == Some(at)
      requires order !in level.orders && level !in others
      requires forall l :: l in others ==> Indexed(l, orderByID) && order !in l.orders
      modifies order`quantity, level`orders, level.orders, `orderByID, `trades
      ensures Now(order, level) == Some(Finish(order.Taker(), at))
      ensures levelEmpty == (level.orders == [])
      ensures forall o :: o in level.orders ==> o in old(level.orders)
      ensures forall l :: l in others ==>
                l.orders == old(l.orders) && QueueOf(l) == old(QueueOf(l)) && Indexed(l, orderByID)
    {
      ghost var lost, orders := LostIds(at.queue, at.wanted), set o | o in level.orders;
      forall l, o | l in others && o in l.orders
        ensures o !in level.orders && o.id !in IdsOf(at.queue)
      {
        assert orderByID[o.id].level == l;
      }
      levelEmpty := MatchOrderList(order, level, at, orders);
      assert orderByID == old(orderByID) - lost;
      forall l | l in others
        ensures l.orders == old(l.orders) && QueueOf(l) == old(QueueOf(l)) && Indexed(l, orderByID)
      {
        assert forall o :: o in l.orders ==> o.id !in lost;
      }
    }

    /** What matching a side against `order` is about now, if the index knows all its levels. */
    ghost function SideNow(order: Order, entries: seq<Entry>): Option<SideMoment>
      reads this, order, LevelsOf(entries), OrdersIn(LevelsOf(entries))
    {
      if SideIndexed(entries, orderByID)
      then Some(SideMoment(ViewOf(entries), order.quantity, orderByID, trades))
      else None
    }

    /** Match the best level, and erase it if that empties it; all levels behind it are `others`. */
    method MatchBestLevel(order: Order, entries: seq<Entry>, ghost at: SideMoment, ghost others: set<PriceLevel>)
      returns (after: seq<Entry>, levelEmpty: bool)
      requires SideNow(order, entries) == Some(at) && entries != []
      requires order !in entries[0].level.orders && entries[0].level !in others
      requires LevelsOf(entries[1..]) <= others
      requires forall l :: l in others ==> Indexed(l, orderByID) && order !in l.orders
      modifies order`quantity, entries[0].level`orders, entries[0].level.orders, `orderByID, `trades
      ensures SideNow(order, after) == Some(AfterLevel(order.Taker(), at))
      ensures levelEmpty == (MatchList(at.view[0].orders, at.wanted).rest == [])
      ensures after == entries[if levelEmpty then 1 else 0..]
      ensures !levelEmpty ==> order.quantity == 0
      ensures forall o :: o in entries[0].level.orders ==> o in old(entries[0].level.orders)
      ensures forall l :: l in others ==>
                l.orders == old(l.orders) && QueueOf(l) == old(QueueOf(l)) && Indexed(l, orderByID)
    {
      var first := entries[0].level;
      ghost var moment := Moment(at.view[0].orders, order.quantity, first.orders, orderByID, trades);
      ghost var m := MatchList(at.view[0].orders, at.wanted);
      MatchListLeaves(at.view[0].orders, at.wanted);
      levelEmpty := MatchLevel(order, first, moment, others);
      assert Now(order, first).value == Finish(order.Taker(), moment);
      after := entries[if levelEmpty then 1 else 0..];
      forall i | 0 < i < |entries|
        ensures Indexed(entries[i].level, orderByID) && QueueOf(entries[i].level) == at.view[i].orders
      {
        assert entries[1..][i - 1].level in LevelsOf(entries[1..]);
      }
      ShorterSide(entries, at.view, m.rest, orderByID);
    }

    /** The body of the loop over a side. */
    method MatchSideOnce(order: Order, entries: seq<Entry>, ghost at: SideMoment,
                         ghost levels: set<PriceLevel>, ghost orders: set<Order>, ghost others: set<PriceLevel>)
      returns (after: seq<Entry>, levelEmpty: bool)
      requires SideNow(order, entries) == Some(at) && entries != []
      requires MadeOf(entries, levels, orders) && order !in orders && levels !! others
      requires forall l :: l in others ==> Indexed(l, orderByID) && order !in l.orders
      modifies order`quantity, levels`orders, orders, `orderByID, `trades
      ensures SideNow(order, after) == Some(AfterLevel(order.Taker(), at))
      ensures levelEmpty == (MatchList(at.view[0].orders, at.wanted).rest == [])
      ensures !levelEmpty ==> order.quantity == 0
      ensures MadeOf(after, levels, orders)
      ensures forall l :: l in others ==>
                l.orders == old(l.orders) && QueueOf(l) == old(QueueOf(l)) && Indexed(l, orderByID)
    {
      hide Indexed, QueueOf, AfterLevel, MatchList, SideNow;
      BehindFirst(order, entries, at, levels, orders);
      after, levelEmpty := MatchBestLevel(order, entries, at, others + LevelsOf(entries[1..]));
      forall i | 0 < i < |entries| ensures entries[i].level.orders == old(entries[i].level.orders) {
        assert entries[1..][i - 1].level in LevelsOf(entries[1..]);
      }
    }

    /** Match `order` against the levels of the opposite side, best first, within its price. The ghost
        sets bound the objects the side is made of and the levels elsewhere. */
    method MatchSide(order: Order, opposite: seq<Entry>, ghost at: SideMoment,
                     ghost levels: set<PriceLevel>, ghost orders: set<Order>, ghost others: set<PriceLevel>)
      returns (left: seq<Entry>)
      requires SideNow(order, opposite) == Some(at)
      requires MadeOf(opposite, levels, orders) && order !in orders && levels !! others
      requires forall l :: l in others ==> Indexed(l, orderByID) && order !in l.orders
      modifies order`quantity, levels`orders, orders, `orderByID, `trades
      ensures SideNow(order, left) == Some(FinishSide(order.Taker(), at))
      ensures MadeOf(left, levels, orders)
      ensures forall l :: l in others ==>
                l.orders == old(l.orders) && QueueOf(l) == old(QueueOf(l)) && Indexed(l, orderByID)
    {
      ghost var taker, now := order.Taker(), at;
      left := opposite;
      var it := 0;
      hide FinishSide, AfterLevel, SideNow, Indexed, QueueOf;
      while it < |left| && order.quantity > 0 && Crosses(order.side, left[it].price, order.price)
        invariant it == 0 || order.quantity == 0
        invariant SideNow(order, left) == Some(now)
        invariant FinishSide(taker, at) == if it == 0 then FinishSide(taker, now) else now
        invariant MadeOf(left, levels, orders)
        invariant forall l :: l in others ==>
                    l.orders == old(l.orders) && QueueOf(l) == old(QueueOf(l)) && Indexed(l, orderByID)
        decreases |left| - it
      {
        SideFacts(order, left, now);
        SideStep(taker, now);
        var levelEmpty: bool;
        left, levelEmpty := MatchSideOnce(order, left, now, levels, orders, others);
        now := AfterLevel(taker, now);
        if !levelEmpty {
          it := it + 1;
        }
      }
      SideFacts(order, left, now);
      if it == 0 {
        SideEnds(taker, now);
      }
    }

    /** Match an order of one side against the opposite side; its own side stays as it is. */
    method MatchOpposite(order: Order, opposite: seq<Entry>, ghost view: seq<Level>,
                         ghost own: seq<Entry>, ghost ownView: seq<Level>) returns (left: seq<Entry>)
      requires SideShows(opposite, orderByID) == Some(view) && SideShows(own, orderByID) == Some(ownView)
      requires LevelsOf(opposite) !! LevelsOf(own)
      requires order !in OrdersIn(LevelsOf(opposite)) && order !in OrdersIn(LevelsOf(own))
      modifies order`quantity, LevelsOf(opposite)`orders, OrdersIn(LevelsOf(opposite)), `orderByID, `trades
      ensures var qty := old(order.quantity);
              var sw := Sweep(view, order.side, order.price, qty);
              && SideShows(left, orderByID) == Some(sw.levels)
              && order.quantity == sw.qty
              && trades == old(trades) + TradesOf(order.Taker(), sw.fills)
              && orderByID == old(orderByID) - SweptIds(view, order.side, order.price, qty)
      ensures SideShows(own, orderByID) == Some(ownView)
      ensures LevelsOf(left) <= LevelsOf(opposite)
      ensures OrdersIn(LevelsOf(left)) <= old(OrdersIn(LevelsOf(opposite)))
      ensures OrdersIn(LevelsOf(own)) == old(OrdersIn(LevelsOf(own)))
    {
      ghost var at := SideMoment(view, order.quantity, orderByID, trades);
      ShowsLevels(opposite, view, orderByID);
      ShowsLevels(own, ownView, orderByID);
      left := MatchSide(order, opposite, at, LevelsOf(opposite), OrdersIn(LevelsOf(opposite)), LevelsOf(own));
      assert forall i :: 0 <= i < |own| ==> own[i] in own;
      forall i | 0 <= i < |own|
        ensures Level(own[i].price, QueueOf(own[i].level)) == ownView[i] && Indexed(own[i].level, orderByID)
      {
        assert own[i].level in LevelsOf(own);
      }
      ShowsAgain(own, ownView, orderByID);
    }

    /** Match an order that is not in the book; what is left of it is returned. */
    method MatchOrder(order: Order) returns (quantity: nat)
      requires Valid() && order !in Held()
      modifies this, order`quantity, Levels()`orders, Held()
      ensures var sw := Sweep(old(book).On(order.side.Opposite()), order.side, order.price, old(order.quantity));
              && Valid()
              && book == old(book).With(order.side.Opposite(), sw.levels)
              && trades == old(trades) + TradesOf(order.Taker(), sw.fills)
              && quantity == order.quantity == sw.qty
      ensures Levels() <= old(Levels()) && Held() <= old(Held())
    {
      hide SideShows, RestingIds, Sweep, SweptIds, LevelsOf, OrdersIn, Good, TradesOf, HeldIn;
      HeldCovers(bids, book.bids);
      HeldCovers(asks, book.asks);
      var opp := order.side.Opposite();
      ghost var sw := Sweep(book.On(opp), order.side, order.price, order.quantity);
      SweptBookGood(book, order.View());
      SweptKeys(book, orderByID, order.side, order.price, order.quantity);
      HeldLess(orderByID, SweptIds(book.On(opp), order.side, order.price, order.quantity));
      var left := MatchOpposite(order, Entries(opp), book.On(opp), Entries(order.side), book.On(order.side));
      Install(opp, left, book.With(opp, sw.levels));
      quantity := order.quantity;
    }

    /** Append an order to a level and index it; every other indexed level stays as it is. */
    method Append(order: Order, level: PriceLevel, ghost others: set<PriceLevel>)
      requires Indexed(level, orderByID) && order !in level.orders && order.id !in orderByID
      requires level !in others && forall l :: l in others ==> Indexed(l, orderByID)
      modifies level`orders, `orderByID
      ensures orderByID == old(orderByID)[order.id := ReferencesBlock(order, level)]
      ensures level.orders == old(level.orders) + [order]
      ensures QueueOf(level) == old(QueueOf(level)) + [order.View()] && Indexed(level, orderByID)
      ensures forall l :: l in others ==> QueueOf(l) == old(QueueOf(l)) && Indexed(l, orderByID)
    {
      orderByID := orderByID[order.id := ReferencesBlock(order, level)];
      level.orders := level.orders + [order];
    }

    /** Rest an order at the back of a level of its side. */
    method JoinLevel(order: Order, entries: seq<Entry>, i: nat, ghost view: seq<Level>,
                     other: seq<Entry>, ghost otherView: seq<Level>)
      requires SideShows(entries, orderByID) == Some(view) && SideShows(other, orderByID) == Some(otherView)
      requires i < |entries| && order !in entries[i].level.orders && order.id !in orderByID
      requires LevelsOf(entries) !! LevelsOf(other)
      modifies LevelsOf(entries)`orders, `orderByID
      ensures SideShows(entries, orderByID) == Some(view[i := Level(view[i].price, view[i].orders + [order.View()])])
      ensures SideShows(other, orderByID) == Some(otherView)
      ensures orderByID.Keys == old(orderByID).Keys + {order.id}
      ensures HeldIn(orderByID) <= old(HeldIn(orderByID)) + {order}
    {
      var level := entries[i].level;
      assert entries[i] in entries;
      ShowsLevels(entries, view, orderByID);
      ShowsLevels(other, otherView, orderByID);
      ghost var rest := LevelsOf(entries) - {level};
      HeldMore(orderByID, order.id, ReferencesBlock(order, level));
      Append(order, level, rest + LevelsOf(other));
      forall j | 0 <= j < |entries| && j != i
        ensures QueueOf(entries[j].level) == view[j].orders && Indexed(entries[j].level, orderByID)
      {
        assert entries[j] in entries && entries[j].level in rest;
      }
      ShowsAgain(entries, view[i := Level(view[i].price, view[i].orders + [order.View()])], orderByID);
      forall j | 0 <= j < |other|
        ensures QueueOf(other[j].level) == otherView[j].orders && Indexed(other[j].level, orderByID)
      {
        assert other[j] in other && other[j].level in LevelsOf(other);
      }
      ShowsAgain(other, otherView, orderByID);
    }

    /** Rest an order at its price: a missing level is made where the map order puts it. */
    method InsertOrder(order: Order, entries: seq<Entry>, ghost view: seq<Level>,
                       other: seq<Entry>, ghost otherView: seq<Level>) returns (after: seq<Entry>)
      requires SideShows(entries, orderByID) == Some(view) && SideShows(other, orderByID) == Some(otherView)
      requires LevelsOf(entries) !! LevelsOf(other)
      requires order !in OrdersIn(LevelsOf(entries)) && order.id !in orderByID
      modifies LevelsOf(entries)`orders, `orderByID
      ensures SideShows(after, orderByID) == Some(Rest(view, order.View()))
      ensures SideShows(other, orderByID) == Some(otherView)
      ensures orderByID.Keys == old(orderByID).Keys + {order.id}
      ensures HeldIn(orderByID) <= old(HeldIn(orderByID)) + {order}
      ensures fresh(LevelsOf(after) - LevelsOf(entries))
      ensures LevelsOf(after) !! LevelsOf(other)
    {
      hide HeldIn;
      var i := LowerBound(entries, order.side, order.price);
      RestAt(view, order.View(), i);
      if i < |entries| && entries[i].price == order.price {
        after := entries;
        assert entries[i] in entries && entries[i].level in LevelsOf(entries);
        JoinLevel(order, entries, i, view, other, otherView);
      } else {
        after := OpenLevel(order, entries, i, view, other, otherView);
      }
    }

    /** A new level; what the sides show does not depend on it. */
    method MakeLevel(entries: seq<Entry>, ghost view: seq<Level>, other: seq<Entry>, ghost otherView: seq<Level>)
      returns (level: PriceLevel)
      requires SideShows(entries, orderByID) == Some(view) && SideShows(other, orderByID) == Some(otherView)
      ensures fresh(level) && level.orders == []
      ensures level !in LevelsOf(entries) && level !in LevelsOf(other)
      ensures SideShows(entries, orderByID) == Some(view) && SideShows(other, orderByID) == Some(otherView)
    {
      level := new PriceLevel();
      assert forall k :: 0 <= k < |entries| ==> entries[k].level != level;
      assert forall k :: 0 <= k < |other| ==> other[k].level != level;
      forall k | 0 <= k < |entries|
        ensures Level(entries[k].price, QueueOf(entries[k].level)) == view[k] && Indexed(entries[k].level, orderByID)
      {
        assert old(IndexedAt(entries, k, orderByID));
      }
      ShowsAgain(entries, view, orderByID);
      forall k | 0 <= k < |other|
        ensures Level(other[k].price, QueueOf(other[k].level)) == otherView[k] && Indexed(other[k].level, orderByID)
      {
        assert old(IndexedAt(other, k, orderByID));
      }
      ShowsAgain(other, otherView, orderByID);
    }

    /** Rest an order in a new level at position `i`. */
    method OpenLevel(order: Order, entries: seq<Entry>, i: nat, ghost view: seq<Level>,
                     other: seq<Entry>, ghost otherView: seq<Level>) returns (after: seq<Entry>)
      requires SideShows(entries, orderByID) == Some(view) && SideShows(other, orderByID) == Some(otherView)
      requires i <= |entries| && |entries| == |view| && order.id !in orderByID
      requires LevelsOf(entries) !! LevelsOf(other)
      modifies LevelsOf(entries)`orders, `orderByID
      ensures SideShows(after, orderByID) == Some(view[..i] + [Level(order.price, [order.View()])] + view[i..])
      ensures SideShows(other, orderByID) == Some(otherView)
      ensures orderByID.Keys == old(orderByID).Keys + {order.id}
      ensures HeldIn(orderByID) <= old(HeldIn(orderByID)) + {order}
      ensures fresh(LevelsOf(after) - LevelsOf(entries))
      ensures LevelsOf(after) !! LevelsOf(other)
    {
      hide SideShows, LevelsOf, HeldIn;
      var level := MakeLevel(entries, view, other, otherView);
      var entry := Entry(order.price, level);
      after := entries[..i] + [entry] + entries[i..];
      OpenedLevel(entries, view, i, entry, orderByID);
      ghost var wider := view[..i] + [Level(order.price, [])] + view[i..];
      assert wider[i] == Level(order.price, []) && [] + [order.View()] == [order.View()];
      assert wider[i := Level(wider[i].price, wider[i].orders + [order.View()])]
          == view[..i] + [Level(order.price, [order.View()])] + view[i..];
      JoinLevel(order, after, i, wider, other, otherView);
    }

    /** Put what matching left of an order into the book. */
    method RestOrder(order: Order)
      requires Valid() && order !in Held() && order.id !in orderByID
      requires var opposite := book.On(order.side.Opposite());
               opposite != [] ==> !Crosses(order.side, opposite[0].price, order.price)
      modifies this, Levels()`orders
      ensures Valid()
      ensures book == old(book).With(order.side, Rest(old(book).On(order.side), order.View()))
      ensures trades == old(trades)
      ensures fresh(Levels() - old(Levels()))
      ensures Held() <= old(Held()) + {order}
    {
      hide HeldIn, SideShows, RestingIds, Rest, LevelsOf, OrdersIn, Good, Find, BookCount;
      RestingIdsCount(book, order.id);
      RestedBookGood(book, order.View());
      RestedKeys(book, order.View());
      ghost var after := book.With(order.side, Rest(book.On(order.side), order.View()));
      HeldCovers(Entries(order.side), book.On(order.side));
      var entries := InsertOrder(order, Entries(order.side), book.On(order.side),
                                 Entries(order.side.Opposite()), book.On(order.side.Opposite()));
      Install(order.side, entries, after);
    }

    /** Make `entries` the map of one side. */
    method Install(side: Side, entries: seq<Entry>, ghost after: GoodBook)
      requires SideShows(entries, orderByID) == Some(after.On(side))
      requires SideShows(Entries(side.Opposite()), orderByID) == Some(after.On(side.Opposite()))
      requires LevelsOf(entries) !! LevelsOf(Entries(side.Opposite()))
      requires orderByID.Keys == RestingIds(after)
      modifies `bids, `asks, `book
      ensures Valid() && book == after
      ensures Entries(side) == entries && Entries(side.Opposite()) == old(Entries(side.Opposite()))
    {
      hide SideShows, RestingIds, LevelsOf, OrdersIn, Good;
      ghost var footprint := OrdersIn(LevelsOf(entries)) + OrdersIn(LevelsOf(Entries(side.Opposite())));
      book := after;
      assert SideShows(entries, orderByID) == Some(after.On(side));
      assert SideShows(Entries(side.Opposite()), orderByID) == Some(after.On(side.Opposite()));
      if side.Buy? {
        bids := entries;
      } else {
        asks := entries;
      }
      assert SideShows(Entries(side), orderByID) == Some(after.On(side));
      assert SideShows(Entries(side.Opposite()), orderByID) == Some(after.On(side.Opposite()));
    }

    method HandleOrderNew(order: Order)
      requires Valid() && order !in Held()
      modifies this, order`quantity, Levels()`orders, Held()
      ensures Valid()
      ensures fresh(Levels() - old(Levels()))
      ensures Held() <= old(Held()) + {order}
      ensures State(book, trades) == HandleNew(old(State(book, trades)), old(order.View()))
    {
      hide HeldIn, SideShows, RestingIds, Rest, LevelsOf, OrdersIn, Good, Sweep, TradesOf, Find, BookCount;
      ghost var o := order.View();
      TakerTrades(o, Sweep(book.On(o.side.Opposite()), o.side, o.price, o.qty).fills);
      SweptBookGood(book, o);
      var left := MatchOrder(order);
      if left == 0 {
        return;
      }
      RestingIdsCount(book, order.id);
      if order.id !in orderByID {
        ghost var swept := Levels();
        label Swept:
        RestOrder(order);
        forall l | l in Levels() && l !in swept ensures fresh(l) {
          assert fresh@Swept(l);
        }
      }
    }

    /** Take an order out of its level and the index; every other indexed level stays as it is. */
    method Detach(order: Order, level: PriceLevel, ghost others: set<PriceLevel>)
      requires Indexed(level, orderByID) && order in level.orders
      requires level !in others && forall l :: l in others ==> Indexed(l, orderByID)
      modifies level`orders, `orderByID
      ensures orderByID == old(orderByID) - {order.id}
      ensures QueueOf(level) == Without(old(QueueOf(level)), order.id) && Indexed(level, orderByID)
      ensures forall l :: l in others ==> QueueOf(l) == old(QueueOf(l)) && Indexed(l, orderByID)
    {
      var j :| 0 <= j < |level.orders| && level.orders[j] == order;
      ghost var queue := QueueOf(level);
      WithoutAt(queue, j);
      hide Without;
      level.orders := level.orders[..j] + level.orders[j + 1..];
      orderByID := orderByID - {order.id};
      assert QueueOf(level) == queue[..j] + queue[j + 1..];
    }

    /** Take an order out of level `i` of its side. */
    method LeaveLevel(order: Order, entries: seq<Entry>, level: PriceLevel, ghost i: nat, ghost view: seq<Level>,
                      other: seq<Entry>, ghost otherView: seq<Level>)
      requires SideShows(entries, orderByID) == Some(view) && SideShows(other, orderByID) == Some(otherView)
      requires LevelsOf(entries) !! LevelsOf(other)
      requires i < |entries| && entries[i].level == level && order in level.orders
      modifies LevelsOf(entries)`orders, `orderByID
      ensures SideShows(entries, orderByID)
              == Some(view[i := Level(view[i].price, Without(view[i].orders, order.id))])
      ensures SideShows(other, orderByID) == Some(otherView)
      ensures orderByID == old(orderByID) - {order.id}
      ensures QueueOf(level) == Without(view[i].orders, order.id)
    {
      assert entries[i] in entries;
      ShowsLevels(entries, view, orderByID);
      ShowsLevels(other, otherView, orderByID);
      hide SideShows, Without;
      ghost var rest := LevelsOf(entries) - {level};
      Detach(order, level, rest + LevelsOf(other));
      forall j | 0 <= j < |entries| && j != i
        ensures QueueOf(entries[j].level) == view[j].orders && Indexed(entries[j].level, orderByID)
      {
        assert entries[j] in entries && entries[j].level in rest;
      }
      ShowsAgain(entries, view[i := Level(view[i].price, Without(view[i].orders, order.id))], orderByID);
      forall j | 0 <= j < |other|
        ensures QueueOf(other[j].level) == otherView[j].orders && Indexed(other[j].level, orderByID)
      {
        assert other[j] in other && other[j].level in LevelsOf(other);
      }
      ShowsAgain(other, otherView, orderByID);
    }

    /** Take an order out of its side; an emptied level leaves the map. */
    method EraseOrder(order: Order, entries: seq<Entry>, ghost i: nat, other: seq<Entry>, ghost shown: GoodBook)
      returns (after: seq<Entry>)
      requires SideShows(entries, orderByID) == Some(shown.On(order.side))
      requires SideShows(other, orderByID) == Some(shown.On(order.side.Opposite()))
      requires LevelsOf(entries) !! LevelsOf(other)
      requires SideCount(shown.On(order.side), order.id) == 1
      requires i < |entries| && order in entries[i].level.orders && entries[i].price == order.price
      requires order.id in orderByID && orderByID[order.id].level == entries[i].level
      modifies LevelsOf(entries)`orders, `orderByID
      ensures SideShows(after, orderByID) == Some(Prune(shown.On(order.side), order.id))
      ensures SideShows(other, orderByID) == Some(shown.On(order.side.Opposite()))
      ensures orderByID == old(orderByID) - {order.id}
      ensures LevelsOf(after) <= LevelsOf(entries)
    {
      var level := orderByID[order.id].level;
      ghost var view, otherView := shown.On(order.side), shown.On(order.side.Opposite());
      hide Good, SideCount, SideShows, Prune, Without, LevelsOf;
      ShowsLevels(entries, view, orderByID);
      PruneInBook(shown, order.side, i, order.View());
      BoundIs(entries, shown, order.side, i);
      LeaveLevel(order, entries, level, i, view, other, otherView);
      ghost var now := view[i := Level(view[i].price, Without(view[i].orders, order.id))];
      assert now[..i] == view[..i] && now[i + 1..] == view[i + 1..];
      after := DropIfEmpty(level, entries, order.side, order.price, i, now, other, otherView);
    }

    /** An emptied level leaves the map. */
    method DropIfEmpty(level: PriceLevel, entries: seq<Entry>, side: Side, price: nat,
                       ghost i: nat, ghost view: seq<Level>, other: seq<Entry>, ghost otherView: seq<Level>)
      returns (after: seq<Entry>)
      requires SideShows(entries, orderByID) == Some(view) && SideShows(other, orderByID) == Some(otherView)
      requires i < |entries| && entries[i].level == level && LowerBound(entries, side, price) == i
      ensures SideShows(after, orderByID) == Some(if view[i].orders == [] then view[..i] + view[i + 1..] else view)
      ensures SideShows(other, orderByID) == Some(otherView)
      ensures LevelsOf(after) <= LevelsOf(entries)
    {
      ShowsLevels(entries, view, orderByID);
      after := entries;
      if level.orders == [] {
        var k := LowerBound(entries, side, price);
        after := entries[..k] + entries[k + 1..];
        DroppedLevel(entries, view, i, orderByID);
      }
    }

    /** The index leads to the order the lookup finds, at its place in the maps. */
    lemma {:induction false} LocateOrder(id: nat) returns (i: nat)
      requires Valid() && id in orderByID
      ensures var r := orderByID[id];
              var o := r.order.View();
              && Find(book, id) == Some(o) && o.id == id
              && i < |Entries(o.side)| && Entries(o.side)[i] == Entry(o.price, r.level)
              && r.order in r.level.orders
              && SideCount(book.On(o.side), id) == 1
    {
      RestingIdsCount(book, id);
      FoundOnItsSide(book, id);
      var o := Find(book, id).value;
      FlattenPlaced(book.On(o.side), o.side, o);
      i :| 0 <= i < |book.On(o.side)| && book.On(o.side)[i].price == o.price && o in book.On(o.side)[i].orders;
      var j :| 0 <= j < |book.On(o.side)[i].orders| && book.On(o.side)[i].orders[j] == o;
      assert IndexedAt(Entries(o.side), i, orderByID);
      assert LevelAt(Entries(o.side), i) == book.On(o.side)[i];
      assert QueueOf(Entries(o.side)[i].level)[j] == o;
    }

    /** Take an indexed order out of the book. */
    method CancelOrderById(id: nat)
      requires Valid() && id in orderByID
      modifies this, Levels()`orders
      ensures Valid() && trades == old(trades)
      ensures book == Remove(old(book), old(orderByID[id].order.View()))
      ensures Levels() <= old(Levels()) && Held() <= old(Held())
    {
      hide SideShows, RestingIds, Prune, LevelsOf, OrdersIn, Good, Find, BookCount, SideCount;
      ghost var i := LocateOrder(id);
      var order := orderByID[id].order;
      ghost var after := Remove(book, order.View());
      RemoveGood(book, order.View());
      RemovedKeys(book, order.View());
      var entries := EraseOrder(order, Entries(order.side), i, Entries(order.side.Opposite()), book);
      Install(order.side, entries, after);
    }

    method HandleOrderCancel(order: Order)
      requires Valid()
      modifies this, Levels()`orders
      ensures Valid()
      ensures Levels() <= old(Levels()) && Held() <= old(Held())
      ensures State(book, trades) == HandleCancel(old(State(book, trades)), order.id, order.side)
    {
      hide HeldIn, SideShows, RestingIds, Prune, LevelsOf, OrdersIn, Good, Find, BookCount, SideCount;
      RestingIdsCount(book, order.id);
      if order.id in orderByID {
        ghost var i := LocateOrder(order.id);
        if order.side == orderByID[order.id].order.side {
          CancelOrderById(order.id);
        }
      }
    }

    /** Give an indexed order a new quantity where it stands. */
    method ChangeQuantity(id: nat, quantity: nat)
      requires Valid() && id in orderByID
      modifies orderByID[id].order`quantity, `book
      ensures Valid() && Levels() == old(Levels()) && Held() == old(Held())
      ensures var o := old(orderByID[id].order.View());
              book == old(book).With(o.side, SetQuantity(old(book).On(o.side), id, quantity))
    {
      hide SideShows, RestingIds, LevelsOf, OrdersIn, Good, Find, BookCount, SideCount, SetQuantity;
      var order := orderByID[id].order;
      ghost var i := LocateOrder(id);
      var side := order.side;
      ghost var after := book.With(side, SetQuantity(book.On(side), id, quantity));
      RequantifiedGood(book, side, id, quantity);
      RequantifiedKeys(book, side, id, quantity);
      SetOrderQuantity(order, quantity, Entries(side), Entries(side.Opposite()), i, book.On(side),
                       book.On(side.Opposite()));
      book := after;
      assert SideShows(Entries(side), orderByID) == Some(after.On(side));
      assert SideShows(Entries(side.Opposite()), orderByID) == Some(after.On(side.Opposite()));
    }

    /** The change of one order's quantity seen in the two sides. */
    method SetOrderQuantity(order: Order, quantity: nat, entries: seq<Entry>, other: seq<Entry>, ghost i: nat,
                        ghost view: seq<Level>, ghost otherView: seq<Level>)
      requires SideShows(entries, orderByID) == Some(view) && SideShows(other, orderByID) == Some(otherView)
      requires LevelsOf(entries) !! LevelsOf(other)
      requires i < |entries| && order in entries[i].level.orders
      requires order.id in orderByID && orderByID[order.id] == ReferencesBlock(order, entries[i].level)
      modifies order`quantity
      ensures SideShows(entries, orderByID) == Some(SetQuantity(view, order.id, quantity))
      ensures SideShows(other, orderByID) == Some(otherView)
      ensures OrdersIn(LevelsOf(entries)) + OrdersIn(LevelsOf(other)) <= Held()
    {
      ShowsLevels(entries, view, orderByID);
      ShowsLevels(other, otherView, orderByID);
      assert entries[i] in entries;
      order.quantity := quantity;
      ghost var after := SetQuantity(view, order.id, quantity);
      forall j | 0 <= j < |entries|
        ensures Level(entries[j].price, QueueOf(entries[j].level)) == after[j] && Indexed(entries[j].level, orderByID)
      {
        assert entries[j] in entries && old(Indexed(entries[j].level, orderByID));
        assert QueueOf(entries[j].level) == Requantify(view[j].orders, order.id, quantity);
      }
      ShowsAgain(entries, after, orderByID);
      forall j | 0 <= j < |other|
        ensures Level(other[j].price, QueueOf(other[j].level)) == otherView[j] && Indexed(other[j].level, orderByID)
      {
        assert other[j] in other && old(Indexed(other[j].level, orderByID));
        assert other[j].level != entries[i].level;
      }
      ShowsAgain(other, otherView, orderByID);
      HeldCovers(entries, after);
      HeldCovers(other, otherView);
    }

    method HandleOrderAmend(order: Order)
      requires Valid() && order !in Held()
      modifies this, order`quantity, Levels()`orders, Held()
      ensures Valid()
      ensures fresh(Levels() - old(Levels()))
      ensures Held() <= old(Held()) + {order}
      ensures State(book, trades) == HandleAmend(old(State(book, trades)), old(order.View()))
    {
      hide HeldIn, SideShows, RestingIds, Prune, LevelsOf, OrdersIn, Good, Find, BookCount, SideCount, SetQuantity,
           HandleNew, Remove;
      RestingIdsCount(book, order.id);
      if order.id in orderByID {
        ghost var i := LocateOrder(order.id);
        var original := orderByID[order.id].order;
        if original.side != order.side {
          return;
        } else if original.price != order.price {
          CancelOrderById(order.id);
          ghost var kept := Levels();
          label Cancelled:
          HandleOrderNew(order);
          forall l | l in Levels() && l !in kept ensures fresh(l) {
            assert fresh@Cancelled(l);
          }
        } else {
          HeldHas(orderByID, order.id);
          ChangeQuantity(order.id, order.quantity);
        }
      }
    }

    method ProcessOrder(order: Order, action: Action)
      requires Valid() && order !in Held()
      modifies this, order`quantity, Levels()`orders, Held()
      ensures Valid()
      ensures fresh(Levels() - old(Levels()))
      ensures Held() <= old(Held()) + {order}
      ensures State(book, trades) == Step(old(State(book, trades)), CommandOf(old(order.View()), action))
      ensures Took(old(State(book, trades)), State(book, trades), old(order.View()), action)
      ensures action == CancelOrder && HasId(Queue(old(State(book, trades)), order.side), order.id) ==>
                order.id !in orderByID
    {
      hide HeldIn, LevelsOf, Took;
      ActionTakes(State(book, trades), order.View(), action);
      if action == CancelOrder {
        CancelledIdFree(book, trades, order.id, order.side);
      }
      match action
      case NewOrder => HandleOrderNew(order);
      case CancelOrder => HandleOrderCancel(order);
      case AmendOrder => HandleOrderAmend(order);
      case Recovery =>
      case RecoveryEnd =>
    }

    /** The oldest order at the highest bid, if there are bids. */
    method GetBestBuyOrder() returns (best: Option<Order>)
      requires Valid()
      ensures best.Some? <==> book.bids != []
      ensures best.Some? ==> best.value.View() == book.bids[0].orders[0]
    {
      ShowsLevels(bids, book.bids, orderByID);
      GoodSide(book, Buy);
      best := if bids == [] then None else Some(bids[0].level.orders[0]);
    }

    /** The oldest order at the lowest ask, if there are asks. */
    method GetBestSellOrder() returns (best: Option<Order>)
      requires Valid()
      ensures best.Some? <==> book.asks != []
      ensures best.Some? ==> best.value.View() == book.asks[0].orders[0]
    {
      ShowsLevels(asks, book.asks, orderByID);
      GoodSide(book, Sell);
      best := if asks == [] then None else Some(asks[0].level.orders[0]);
    }

    lemma {:induction false} BehindFirst(order: Order, entries: seq<Entry>, at: SideMoment,
                      levels: set<PriceLevel>, orders: set<Order>)
      requires SideNow(order, entries) == Some(at) && entries != [] && MadeOf(entries, levels, orders)
      ensures entries[0].level !in LevelsOf(entries[1..]) && LevelsOf(entries[1..]) <= levels
      ensures forall l :: l in LevelsOf(entries[1..]) ==>
                Indexed(l, orderByID) && forall o :: o in l.orders ==> o in orders
    {
      forall l | l in LevelsOf(entries[1..])
        ensures l != entries[0].level && l in levels && Indexed(l, orderByID)
                && forall o :: o in l.orders ==> o in orders
      {
        var e :| e in entries[1..] && e.level == l;
        var i :| 0 <= i < |entries| - 1 && entries[1..][i] == e;
        assert entries[i + 1] == e;
        assert IndexedAt(entries, i + 1, orderByID);
      }
    }

    /** Every order of an indexed side is held. */
    lemma {:induction false} HeldCovers(entries: seq<Entry>, view: seq<Level>)
      requires SideShows(entries, orderByID) == Some(view)
      ensures OrdersIn(LevelsOf(entries)) <= Held()
    {
      ShowsLevels(entries, view, orderByID);
      forall o | o in OrdersIn(LevelsOf(entries)) ensures o in Held() {
        var l :| l in LevelsOf(entries) && o in l.orders;
        assert orderByID[o.id].order == o;
      }
    }

    lemma {:induction false} SideFacts(order: Order, entries: seq<Entry>, at: SideMoment)
      requires SideNow(order, entries) == Some(at)
      ensures SideIndexed(entries, orderByID) && at.wanted == order.quantity && |at.view| == |entries|
      ensures forall i :: 0 <= i < |entries| ==> at.view[i].price == entries[i].price
    {
    }
  }

  // ---- Whole runs of the engine ------------------------------------------------------------------

  /** The orders as they are before any of them is processed. */
  ghost function Views(orders: seq<Order>): (views: seq<Resting>)
    reads orders
    ensures |views| == |orders|
    ensures forall i :: 0 <= i < |views| ==> views[i] == orders[i].View()
  {
    if orders == [] then [] else Views(orders[..|orders| - 1]) + [orders[|orders| - 1].View()]
  }

  function Commands(views: seq<Resting>, actions: seq<Action>): (cs: seq<Command>)
    requires |views| == |actions|
    ensures |cs| == |views|
  {
    seq(|views|, i requires 0 <= i < |views| => CommandOf(views[i], actions[i]))
  }

  lemma {:induction false} CommandsNext(views: seq<Resting>, actions: seq<Action>, i: nat)
    requires i < |views| == |actions|
    ensures var cs := Commands(views, actions);
      Run(cs[..i + 1]) == Step(Run(cs[..i]), CommandOf(views[i], actions[i]))
  {
    hide Step;
    var cs := Commands(views, actions);
    assert cs[..i + 1][..i] == cs[..i];
  }

  /** The `i`-th order cancels an id that came new on its side only before, and does not come new after. */
  ghost predicate CancelsForGood(views: seq<Resting>, actions: seq<Action>, i: nat)
    requires i < |views| == |actions|
  {
    && actions[i] == CancelOrder
    && (forall j :: 0 <= j < i && actions[j] == NewOrder && views[j].id == views[i].id ==>
          views[j].side == views[i].side)
    && (forall j :: i < j < |views| && actions[j] == NewOrder ==> views[j].id != views[i].id)
  }

  /** An order with this id came new on this side. */
  ghost predicate CameNew(views: seq<Resting>, actions: seq<Action>, id: nat, side: Side)
    requires |views| == |actions|
  {
    exists j :: 0 <= j < |views| && actions[j] == NewOrder && views[j].id == id && views[j].side == side
  }

  lemma {:induction false} CancelledDoesNotRest(views: seq<Resting>, actions: seq<Action>, i: nat)
    requires i < |views| == |actions| && CancelsForGood(views, actions, i)
    ensures views[i].id !in RestingIds(Run(Commands(views, actions)).book)
  {
    hide Run;
    var cs := Commands(views, actions);
    assert !Arrived(cs[..i], views[i].id, views[i].side.Opposite());
    assert NoMore(cs, i, views[i].id);
    CancelledUntilNew(cs, i, views[i].id, views[i].side);
    RestingIdsCount(Run(cs).book, views[i].id);
  }

  lemma {:induction false} TradedCameNew(views: seq<Resting>, actions: seq<Action>, k: nat)
    requires |views| == |actions| && k < |Run(Commands(views, actions)).trades|
    ensures var t := Run(Commands(views, actions)).trades[k];
      && t.buyPrice >= t.sellPrice
      && CameNew(views, actions, t.buyId, Buy) && CameNew(views, actions, t.sellId, Sell)
  {
    hide Run;
    var cs := Commands(views, actions);
    RunTradesProper(cs);
    var t := Run(cs).trades[k];
    assert Proper(cs, t);
    var b :| 0 <= b < |cs| && cs[b].New? && cs[b].order.id == t.buyId && cs[b].order.side == Buy;
    var a :| 0 <= a < |cs| && cs[a].New? && cs[a].order.id == t.sellId && cs[a].order.side == Sell;
    assert actions[b] == NewOrder && views[b] == cs[b].order;
    assert actions[a] == NewOrder && views[a] == cs[a].order;
  }

  /** A new engine, given any orders with any actions one after the other, is after each of them where
      the run of the value model is: index, lists and maps agree exactly in every reachable state. Each
      trade is at a price both orders accept, between one that came as a buy and one that came as a sell;
      a cancelled id does not rest until it comes again. */
  method ProcessAll(orders: seq<Order>, actions: seq<Action>) returns (engine: MatchingEngine)
    requires |orders| == |actions|
    requires forall i, j :: 0 <= i < j < |orders| ==> orders[i] != orders[j]
    modifies orders
    ensures fresh(engine) && engine.Valid()
    ensures State(engine.book, engine.trades) == Run(old(Commands(Views(orders), actions)))
    ensures forall i :: 0 <= i < |orders| && CancelsForGood(old(Views(orders)), actions, i) ==>
              orders[i].id !in engine.orderByID
    ensures forall k :: 0 <= k < |engine.trades| ==>
              var t, views := engine.trades[k], old(Views(orders));
              && t.buyPrice >= t.sellPrice
              && CameNew(views, actions, t.buyId, Buy) && CameNew(views, actions, t.sellId, Sell)
  {
    hide Step, Run, LevelsOf, HeldIn, SideShows, RestingIds, OrdersIn, Commands, Views, Good;
    ghost var views := Views(orders);
    ghost var cs := Commands(views, actions);
    RunOfNone(cs);
    engine := new MatchingEngine();
    var i := 0;
    while i < |orders|
      invariant 0 <= i <= |orders|
      invariant fresh(engine) && engine.Valid() && fresh(engine.Levels())
      invariant forall j :: i <= j < |orders| ==> orders[j] !in engine.Held() && orders[j].View() == views[j]
      invariant forall o :: o in engine.Held() ==> o in orders
      invariant State(engine.book, engine.trades) == Run(cs[..i])
    {
      CommandsNext(views, actions, i);
      ghost var levels := engine.Levels();
      label Before:
      engine.ProcessOrder(orders[i], actions[i]);
      forall l | l in engine.Levels() && l !in levels ensures fresh(l) {
        assert fresh@Before(l);
      }
      i := i + 1;
    }
    assert cs[..i] == cs;
    forall i | 0 <= i < |orders| && CancelsForGood(views, actions, i) ensures orders[i].id !in engine.orderByID {
      CancelledDoesNotRest(views, actions, i);
    }
    forall k | 0 <= k < |engine.trades|
      ensures var t := engine.trades[k];
        && t.buyPrice >= t.sellPrice
        && CameNew(views, actions, t.buyId, Buy) && CameNew(views, actions, t.sellId, Sell)
    {
      TradedCameNew(views, actions, k);
    }
  }

  lemma {:induction false} RunOfNone(cs: seq<Command>)
    ensures Run(cs[..0]) == Empty
  {
  }

  /** These sets hold all levels and orders of a side. */
  ghost predicate MadeOf(entries: seq<Entry>, levels: set<PriceLevel>, orders: set<Order>)
    reads levels
  {
    forall i :: 0 <= i < |entries| ==>
      entries[i].level in levels && forall o :: o in entries[i].level.orders ==> o in orders
  }

  /** The side after its first level has become `rest`, be that empty or not. */
  lemma {:induction false} ShorterSide(entries: seq<Entry>, view: seq<Level>, rest: seq<Resting>, index: Index)
    requires |entries| == |view| > 0
    requires forall i :: 0 <= i < |entries| ==> Indexed(entries[i].level, index)
    requires forall i :: 0 <= i < |entries| ==> entries[i].price == view[i].price
    requires forall i :: 0 < i < |entries| ==> QueueOf(entries[i].level) == view[i].orders
    requires forall i, j :: 0 <= i < j < |entries| ==> entries[i].level != entries[j].level
    requires QueueOf(entries[0].level) == rest
    ensures SideIndexed(entries[0..], index) && SideIndexed(entries[1..], index)
    ensures ViewOf(entries[0..]) == view[0 := Level(view[0].price, rest)]
    ensures ViewOf(entries[1..]) == view[1..]
  {
    var whole, tail := entries[0..], entries[1..];
    forall i | 0 <= i < |whole| ensures IndexedAt(whole, i, index) {}
    forall i | 0 <= i < |tail| ensures IndexedAt(tail, i, index) {
      assert tail[i] == entries[i + 1];
    }
  }
}
