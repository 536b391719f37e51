/** The limit order book as a value: price levels, the matching sweep and the three commands.
    The class in MatchingEngine.dfy is proved to step exactly like this model. */
module OrderBook {
  import opened Words

  const TRADE_QUANTITY_MODULUS: nat := WORD32

  datatype Side = Buy | Sell {
    function Opposite(): Side {
      if Buy? then Sell else Buy
    }
  }

  datatype Resting = Resting(id: nat, side: Side, price: nat, qty: nat)

  datatype Level = Level(price: nat, orders: seq<Resting>)

  /** What one maker gave to the taker. */
  datatype Fill = Fill(id: nat, price: nat, qty: nat)

  datatype Trade = Trade(buyId: nat, buyPrice: nat, sellId: nat, sellPrice: nat, quantity: nat)

  datatype Book = Book(bids: seq<Level>, asks: seq<Level>) {
    function On(side: Side): seq<Level> {
      if side.Buy? then bids else asks
    }

    function With(side: Side, levels: seq<Level>): Book {
      if side.Buy? then this.(bids := levels) else this.(asks := levels)
    }
  }

  datatype State = State(book: Book, trades: seq<Trade>)

  datatype Command =
    | New(order: Resting)
    | Cancel(id: nat, side: Side)
    | Amend(order: Resting)
    | Ignored

  // ---- Order of prices -------------------------------------------------------------------

  /** The map order of one book side: bids fall, asks rise. */
  predicate Better(side: Side, p: nat, q: nat) {
    if side.Buy? then p > q else p < q
  }

  /** A level of the opposite side is within the limit of a taker on side `taker`. */
  predicate Crosses(taker: Side, levelPrice: nat, limit: nat) {
    if taker.Sell? then levelPrice >= limit else levelPrice <= limit
  }

  /** The levels of one side stand in map order, no price twice. */
  ghost predicate Sorted(levels: seq<Level>, side: Side) {
    forall i, j :: 0 <= i < j < |levels| ==> Better(side, levels[i].price, levels[j].price)
  }

  /** Every order of a level has the level's price and the side of the map it is in. */
  ghost predicate Placed(level: Level, side: Side) {
    forall j :: 0 <= j < |level.orders| ==>
      level.orders[j].price == level.price && level.orders[j].side == side
  }

  ghost predicate AllPlaced(levels: seq<Level>, side: Side) {
    forall i :: 0 <= i < |levels| ==> Placed(levels[i], side)
  }

  // ---- The nested sweep ------------------------------------------------------------------

  datatype Matched = Matched(rest: seq<Resting>, qty: nat, fills: seq<Fill>)

  function FillOf(maker: Resting, qty: nat): Fill {
    Fill(maker.id, maker.price, qty)
  }

  /** One price level against a taker quantity. */
  function MatchList(orders: seq<Resting>, qty: nat): Matched {
    if orders == [] then
      Matched([], qty, [])
    else if qty >= orders[0].qty then
      var m := MatchList(orders[1..], qty - orders[0].qty);
      m.(fills := [FillOf(orders[0], orders[0].qty)] + m.fills)
    else
      Matched([orders[0].(qty := orders[0].qty - qty)] + orders[1..], 0, [FillOf(orders[0], qty)])
  }

  datatype Swept = Swept(levels: seq<Level>, qty: nat, fills: seq<Fill>)

  /** The levels of one side, best first, against a taker. */
  function Sweep(levels: seq<Level>, taker: Side, limit: nat, qty: nat): Swept {
    if levels == [] || qty == 0 || !Crosses(taker, levels[0].price, limit) then
      Swept(levels, qty, [])
    else
      var m := MatchList(levels[0].orders, qty);
      var tail := Sweep(levels[1..], taker, limit, m.qty);
      Swept(if m.rest == [] then tail.levels else [Level(levels[0].price, m.rest)] + tail.levels,
            tail.qty,
            m.fills + tail.fills)
  }

  // ---- The commands ----------------------------------------------------------------------

  function TradeOf(taker: Resting, fill: Fill): Trade {
    var q := fill.qty % TRADE_QUANTITY_MODULUS;
    if taker.side.Sell?
    then Trade(fill.id, fill.price, taker.id, taker.price, q)
    else Trade(taker.id, taker.price, fill.id, fill.price, q)
  }

  /** A trade names the order and the maker it met, each with id and price on its own side. */
  predicate Between(t: Trade, o: Resting, maker: Resting) {
    if o.side.Buy?
    then t.buyId == o.id && t.buyPrice == o.price && t.sellId == maker.id && t.sellPrice == maker.price
    else t.sellId == o.id && t.sellPrice == o.price && t.buyId == maker.id && t.buyPrice == maker.price
  }

  function TradesOf(taker: Resting, fills: seq<Fill>): (log: seq<Trade>)
    ensures |log| == |fills|
    ensures forall i :: 0 <= i < |fills| ==> log[i] == TradeOf(taker, fills[i])
  {
    seq(|fills|, i requires 0 <= i < |fills| => TradeOf(taker, fills[i]))
  }

  /** Append to the level of the order's price, creating the level where the map order puts it. */
  function Rest(levels: seq<Level>, o: Resting): seq<Level> {
    if levels == [] then
      [Level(o.price, [o])]
    else if levels[0].price == o.price then
      [Level(o.price, levels[0].orders + [o])] + levels[1..]
    else if Better(o.side, o.price, levels[0].price) then
      [Level(o.price, [o])] + levels
    else
      [levels[0]] + Rest(levels[1..], o)
  }

  function Without(orders: seq<Resting>, id: nat): seq<Resting> {
    if orders == [] then []
    else if orders[0].id == id then Without(orders[1..], id)
    else [orders[0]] + Without(orders[1..], id)
  }

  /** Take an order out of its level, and the level out of the side if that empties it. */
  function Prune(levels: seq<Level>, id: nat): seq<Level> {
    if levels == [] then
      []
    else
      var kept := Without(levels[0].orders, id);
      if kept == [] then Prune(levels[1..], id)
      else [Level(levels[0].price, kept)] + Prune(levels[1..], id)
  }

  function Requantify(orders: seq<Resting>, id: nat, qty: nat): (r: seq<Resting>) {
    seq(|orders|, i requires 0 <= i < |orders| =>
          if orders[i].id == id then orders[i].(qty := qty) else orders[i])
  }

  function SetQuantity(levels: seq<Level>, id: nat, qty: nat): seq<Level> {
    seq(|levels|, i requires 0 <= i < |levels| =>
          Level(levels[i].price, Requantify(levels[i].orders, id, qty)))
  }

  function Flatten(levels: seq<Level>): seq<Resting> {
    if levels == [] then [] else levels[0].orders + Flatten(levels[1..])
  }

  function FindIn(orders: seq<Resting>, id: nat): Option<Resting> {
    if orders == [] then None
    else if orders[0].id == id then Some(orders[0])
    else FindIn(orders[1..], id)
  }

  /** The resting order with this id, if any. */
  function Find(book: Book, id: nat): Option<Resting> {
    FindIn(Flatten(book.bids) + Flatten(book.asks), id)
  }

  function HandleNew(s: State, o: Resting): State {
    var sw := Sweep(s.book.On(o.side.Opposite()), o.side, o.price, o.qty);
    var book := s.book.With(o.side.Opposite(), sw.levels);
    var trades := s.trades + TradesOf(o, sw.fills);
    if sw.qty == 0 || Find(book, o.id).Some? then
      State(book, trades)
    else
      State(book.With(o.side, Rest(book.On(o.side), o.(qty := sw.qty))), trades)
  }

  function Remove(book: Book, o: Resting): Book {
    book.With(o.side, Prune(book.On(o.side), o.id))
  }

  function HandleCancel(s: State, id: nat, side: Side): State {
    match Find(s.book, id)
    case None => s
    case Some(o) => if o.side != side then s else s.(book := Remove(s.book, o))
  }

  function HandleAmend(s: State, o: Resting): State {
    match Find(s.book, o.id)
    case None => s
    case Some(was) =>
      if was.side != o.side then s
      else if was.price != o.price then HandleNew(s.(book := Remove(s.book, was)), o)
      else s.(book := s.book.With(o.side, SetQuantity(s.book.On(o.side), o.id, o.qty)))
  }

  function Step(s: State, c: Command): State {
    match c
    case New(o) => HandleNew(s, o)
    case Cancel(id, side) => HandleCancel(s, id, side)
    case Amend(o) => HandleAmend(s, o)
    case Ignored => s
  }

  const Empty: State := State(Book([], []), [])

  /** The state after a whole run of commands, from the empty engine. */
  function Run(cs: seq<Command>): State {
    if cs == [] then Empty else Step(Run(cs[..|cs| - 1]), cs[|cs| - 1])
  }
}
