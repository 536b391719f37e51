/** The price ladder: one level per tick, an id index, and queries by depth. */
module PriceLadders {

  import opened Words
  import opened Sequences
  import opened PriceItems
  import opened PriceLevels

  const MAX64: Word64 := WORD64 - 1

  ghost function OrdersOf(levels: seq<PriceLevel>): (all: set<Order>)
    reads levels`orders
    ensures forall i, o :: 0 <= i < |levels| && o in levels[i].orders ==> o in all
  {
    set i, o | 0 <= i < |levels| && o in levels[i].orders :: o
  }

  ghost function Rows(levels: seq<PriceLevel>): (rows: seq<seq<Order>>)
    reads levels`orders
    ensures |rows| == |levels|
    ensures forall i :: 0 <= i < |levels| ==> rows[i] == levels[i].orders
    ensures OrdersOf(levels) == AllIn(rows)
  {
    if levels == [] then []
    else
      var front := levels[..|levels| - 1];
      assert forall i :: 0 <= i < |front| ==> front[i] == levels[i];
      Rows(front) + [levels[|levels| - 1].orders]
  }

  ghost function AllIn(rows: seq<seq<Order>>): set<Order> {
    set i, o | 0 <= i < |rows| && o in rows[i] :: o
  }

  /** `index` holds exactly the orders of `standing`, each under its own id. */
  ghost predicate Agree(index: map<Word64, Order>, standing: set<Order>) {
    && (forall o :: o in standing ==> o.orderId in index && index[o.orderId] == o)
    && (forall id :: id in index ==> index[id] in standing && index[id].orderId == id)
  }

  /** What emplacing leaves: an id that is taken keeps its old order. */
  function Emplaced(index: map<Word64, Order>, order: Order): map<Word64, Order> {
    if order.orderId in index then index else index[order.orderId := order]
  }

  /** Adding keeps the agreement exactly when the new id is not yet in use. */
  lemma {:induction false} AddingAgreesUnlessTaken(index: map<Word64, Order>, standing: set<Order>, order: Order)
    requires order !in standing
    ensures Agree(index, standing) ==>
              (Agree(Emplaced(index, order), standing + {order})
               <==> forall o :: o in standing ==> o.orderId != order.orderId)
  {
    if o :| Agree(index, standing) && o in standing && o.orderId == order.orderId {
      assert index[order.orderId] == o;
    }
  }

  lemma {:induction false} RemovingAgrees(index: map<Word64, Order>, standing: set<Order>, order: Order)
    requires order in standing
    ensures Agree(index, standing) ==> Agree(index - {order.orderId}, standing - {order})
  {
  }

  /** The queues of a row of levels, as values. */
  ghost function Queues(levels: seq<PriceLevel>): (queues: seq<seq<Item>>)
    reads levels`orders, OrdersOf(levels)`volume
    ensures |queues| == |levels|
    ensures forall i :: 0 <= i < |levels| ==> queues[i] == levels[i].Queue()
  {
    if levels == [] then []
    else
      var front := levels[..|levels| - 1];
      assert forall i :: 0 <= i < |front| ==> front[i] == levels[i];
      assert OrdersOf(front) <= OrdersOf(levels);
      Queues(front) + [levels[|levels| - 1].Queue()]
  }

  lemma {:induction false} NoOrders(levels: seq<PriceLevel>)
    requires forall i :: 0 <= i < |levels| ==> levels[i].orders == []
    ensures OrdersOf(levels) == {}
  {
  }

  lemma {:induction false} OrdersJoin(levels: seq<PriceLevel>, before: seq<seq<Order>>, p: nat, order: Order)
    requires p < |levels| == |before| && levels[p].orders == before[p] + [order]
    requires forall j :: 0 <= j < |levels| && j != p ==> levels[j].orders == before[j]
    ensures OrdersOf(levels) == AllIn(before) + {order}
  {
  }

  lemma {:induction false} OrdersLeave(levels: seq<PriceLevel>, before: seq<seq<Order>>, p: nat, k: nat)
    requires p < |levels| == |before| && k < |before[p]|
    requires levels[p].orders == Drop(before[p], k) && Distinct(before[p])
    requires forall j :: 0 <= j < |levels| && j != p ==> levels[j].orders == before[j] && before[p][k] !in before[j]
    ensures OrdersOf(levels) == AllIn(before) - {before[p][k]}
  {
    hide Drop;
    DropIsWithout(before[p], k);
  }

  lemma {:induction false} QueuesChange(levels: seq<PriceLevel>, before: seq<seq<Item>>, p: nat)
    requires p < |levels| == |before|
    requires forall j :: 0 <= j < |levels| && j != p ==> levels[j].Queue() == before[j]
    ensures Queues(levels) == before[p := levels[p].Queue()]
  {
  }

  class PriceLadder {
    const minPriceTick: Word64
    const maxPriceTick: Word64
    const numLevels: Word64
    var levels: seq<PriceLevel>
    var bidLevels: seq<PriceLevel>
    var askLevels: seq<PriceLevel>
    var orderIndex: map<Word64, Order>

    /** One level per tick, listed downwards for bids and upwards for asks. */
    ghost predicate Laid()
      reads this`levels, this`bidLevels, this`askLevels
    {
      && 0 < minPriceTick <= maxPriceTick < MAX64
      && numLevels == maxPriceTick - minPriceTick + 1 == |levels|
      && (forall i :: 0 <= i < |levels| ==> levels[i].priceTick == minPriceTick + i)
      && bidLevels == Reversed(levels)
      && askLevels == levels
    }

    /** Every level is a sound list of orders of its own price. */
    ghost predicate Valid()
      reads this`levels, this`bidLevels, this`askLevels, levels, OrdersOf(levels)
    {
      && Laid()
      && forall i :: 0 <= i < |levels| ==>
           assert forall o :: o in levels[i].orders ==> o in OrdersOf(levels);
           levels[i].Valid() && Priced(levels[i])
    }

    ghost predicate Priced(level: PriceLevel)
      reads level`orders
    {
      forall o :: o in level.orders ==> o.priceTick == level.priceTick
    }

    /** The index holds exactly the orders in the levels, each under its id. */
    ghost predicate Indexed()
      reads this`levels, this`orderIndex, levels`orders
    {
      Agree(orderIndex, OrdersOf(levels))
    }

    ghost function Book(): seq<seq<Item>>
      reads this`levels, levels`orders, OrdersOf(levels)`volume
    {
      Queues(levels)
    }

    constructor (minPriceTick: Word64, maxPriceTick: Word64)
      requires 0 < minPriceTick <= maxPriceTick < MAX64
      ensures Valid() && Indexed()
      ensures this.minPriceTick == minPriceTick && this.maxPriceTick == maxPriceTick
      ensures orderIndex == map[] && OrdersOf(levels) == {} && fresh(levels)
    {
      this.minPriceTick, this.maxPriceTick := minPriceTick, maxPriceTick;
      numLevels := maxPriceTick - minPriceTick + 1;
      orderIndex := map[];
      var row := EmptyLevels(minPriceTick, maxPriceTick);
      levels := row;
      var down := Downwards(row, minPriceTick, maxPriceTick);
      bidLevels := down;
      var up := Upwards(row, minPriceTick, maxPriceTick);
      askLevels := up;
      new;
      hide Chain, Views, Distinct, Total, Wrap;
      NoOrders(levels);
    }

    static method EmptyLevels(low: Word64, high: Word64) returns (row: seq<PriceLevel>)
      requires 0 < low <= high < MAX64
      ensures |row| == high - low + 1 && fresh(row)
      ensures forall i :: 0 <= i < |row| ==> row[i].Valid()
      ensures forall i :: 0 <= i < |row| ==> row[i].orders == [] && row[i].priceTick == low + i
    {
      hide Wrap, Chain, Views, Distinct, Total;
      row := [];
      var price := low;
      while price <= high
        invariant low <= price <= high + 1 && |row| == price - low && fresh(row)
        invariant forall i :: 0 <= i < |row| ==> row[i].Valid()
        invariant forall i :: 0 <= i < |row| ==> row[i].orders == [] && row[i].priceTick == low + i
      {
        WrapSmall(price + 1);
        var level := new PriceLevel(price);
        row := row + [level];
        price := Wrap(price + 1);
      }
    }

    /** The bid listing: from the highest price down. Stepping below `low` must not wrap round. */
    static method Downwards(row: seq<PriceLevel>, low: Word64, high: Word64) returns (down: seq<PriceLevel>)
      requires 0 < low <= high < MAX64 && |row| == high - low + 1
      ensures down == Reversed(row)
    {
      hide Wrap;
      down := [];
      var price := high;
      while price >= low
        invariant low - 1 <= price <= high && |down| == high - price
        invariant forall i :: 0 <= i < |down| ==> down[i] == row[|row| - 1 - i]
      {
        WrapBack(price);
        down := down + [row[price - low]];
        price := Wrap(price + WORD64 - 1);
      }
    }

    static method Upwards(row: seq<PriceLevel>, low: Word64, high: Word64) returns (up: seq<PriceLevel>)
      requires 0 < low <= high < MAX64 && |row| == high - low + 1
      ensures up == row
    {
      hide Wrap;
      up := [];
      var price := low;
      while price <= high
        invariant low <= price <= high + 1 && up == row[..price - low]
      {
        WrapSmall(price + 1);
        up := up + [row[price - low]];
        price := Wrap(price + 1);
      }
      assert up == row;
    }

    /** The rank of an order's level. */
    ghost function Rank(order: Order): (i: nat)
      reads this`levels, this`bidLevels, this`askLevels
      requires Laid() && minPriceTick <= order.priceTick <= maxPriceTick
      ensures i < |levels| && levels[i].priceTick == order.priceTick
    {
      order.priceTick - minPriceTick
    }

    /** The level surgery of an addition: the other levels are untouched. */
    method Place(order: Order)
      requires Valid() && order !in OrdersOf(levels)
      requires minPriceTick <= order.priceTick <= maxPriceTick
      modifies levels[Rank(order)], order`level, order`prev, order`next,
               (if levels[Rank(order)].tail == null then {} else {levels[Rank(order)].tail})`next
      ensures forall i :: 0 <= i < |levels| ==> levels[i].Valid()
      ensures forall i :: 0 <= i < |levels| && i != Rank(order) ==>
                levels[i].orders == old(levels[i].orders) && levels[i].Queue() == old(levels[i].Queue())
      ensures levels[Rank(order)].orders == old(levels[Rank(order)].orders) + [order]
      ensures levels[Rank(order)].Queue() == old(levels[Rank(order)].Queue()) + [order.View()]
    {
      hide Wrap, Total, Chain, Views, Distinct, Queues, OrdersOf;
      var level := levels[order.priceTick - minPriceTick];
      ghost var p := Rank(order);
      forall j | 0 <= j < |levels| && j != p
        ensures order !in levels[j].orders && (level.tail != null ==> level.tail !in levels[j].orders)
      {
        TailStands(level);
      }
      level.AddOrder(order);
      hide PriceLevel.Valid, PriceLevel.Queue;
    }

    /** The tail an addition writes to is an order of the ladder. */
    lemma {:induction false} TailsStand()
      requires Valid()
      ensures forall i :: 0 <= i < |levels| && levels[i].tail != null ==> levels[i].tail in OrdersOf(levels)
    {
      forall i | 0 <= i < |levels| && levels[i].tail != null ensures levels[i].tail in OrdersOf(levels) {
        TailStands(levels[i]);
      }
    }

    method AddOrder(order: Order)
      requires Valid() && order !in OrdersOf(levels)
      requires minPriceTick <= order.priceTick <= maxPriceTick
      modifies this`orderIndex, levels[Rank(order)], order`level, order`prev, order`next,
               (if levels[Rank(order)].tail == null then {} else {levels[Rank(order)].tail})`next
      ensures Valid()
      ensures OrdersOf(levels) == old(OrdersOf(levels)) + {order}
      ensures Book() == old(Book()[Rank(order) := Book()[Rank(order)] + [order.View()]])
      ensures orderIndex == Emplaced(old(orderIndex), order)
      ensures old(Indexed()) ==> (Indexed() <==> forall o :: o in old(OrdersOf(levels)) ==> o.orderId != order.orderId)
    {
      hide PriceLevel.Valid, PriceLevel.Queue, Queues, OrdersOf, AllIn, Agree;
      ghost var rows, queues := Rows(levels), Queues(levels);
      Place(order);
      OrdersJoin(levels, rows, Rank(order), order);
      QueuesChange(levels, queues, Rank(order));
      AddingAgreesUnlessTaken(orderIndex, AllIn(rows), order);
      if order.orderId !in orderIndex {
        orderIndex := orderIndex[order.orderId := order];
      }
    }

    /** An order in the ladder stands in the level of its own price. */
    lemma {:induction false} AtHome(order: Order)
      requires Valid() && order in OrdersOf(levels)
      ensures minPriceTick <= order.priceTick <= maxPriceTick
      ensures order in levels[Rank(order)].orders && order.level == levels[Rank(order)]
      ensures Distinct(levels[Rank(order)].orders)
      ensures forall j :: 0 <= j < |levels| && j != Rank(order) ==> order !in levels[j].orders
    {
      hide PriceLevel.Queue, Queues, Chain, Views, Total, Wrap;
      var i :| 0 <= i < |levels| && order in levels[i].orders;
      assert levels[i].Valid() && Priced(levels[i]);
    }

    /** The list neighbours and the level of an order in the ladder are the ladder's too. */
    lemma {:induction false} NeighboursInLadder(order: Order)
      requires Valid() && order in OrdersOf(levels)
      ensures order.level != null && order.level in levels
      ensures order.prev != null ==> order.prev in OrdersOf(levels)
      ensures order.next != null ==> order.next in OrdersOf(levels)
    {
      AtHome(order);
      NeighboursStand(levels[Rank(order)], order);
    }

    /** The level surgery of a removal: the other levels are untouched. */
    method Displace(order: Order)
      requires Valid() && order in OrdersOf(levels)
      requires minPriceTick <= order.priceTick <= maxPriceTick
      requires order.level == levels[Rank(order)] && order in order.level.orders
      modifies order.level, order`level, order`prev, order`next,
               (if order.prev == null then {} else {order.prev})`next,
               (if order.next == null then {} else {order.next})`prev
      ensures order.level == null
      ensures forall i :: 0 <= i < |levels| ==> levels[i].Valid()
      ensures forall i :: 0 <= i < |levels| && i != Rank(order) ==>
                levels[i].orders == old(levels[i].orders) && levels[i].Queue() == old(levels[i].Queue())
      ensures levels[Rank(order)].orders
           == Drop(old(levels[Rank(order)].orders), old(levels[Rank(order)].Position(order)))
      ensures levels[Rank(order)].Queue()
           == Drop(old(levels[Rank(order)].Queue()), old(levels[Rank(order)].Position(order)))
    {
      hide Wrap, Total, Chain, Views, Distinct, Queues, OrdersOf, Drop;
      var level := order.level;
      ghost var p := Rank(order);
      NeighboursStand(level, order);
      forall j | 0 <= j < |levels| && j != p
        ensures order !in levels[j].orders
        ensures order.prev != null ==> order.prev !in levels[j].orders
        ensures order.next != null ==> order.next !in levels[j].orders
      {
      }
      level.RemoveOrder(order);
      hide PriceLevel.Valid, PriceLevel.Queue;
    }

    method RemoveOrder(order: Order)
      requires Valid() && order in OrdersOf(levels)
      modifies this`orderIndex, order.level, order`level, order`prev, order`next,
               (if order.prev == null then {} else {order.prev})`next,
               (if order.next == null then {} else {order.next})`prev
      ensures Valid() && order.level == null
      ensures OrdersOf(levels) == old(OrdersOf(levels)) - {order}
      ensures minPriceTick <= order.priceTick <= maxPriceTick && order in old(levels[Rank(order)].orders)
      ensures Book() == old(Book()[Rank(order) := Drop(Book()[Rank(order)], levels[Rank(order)].Position(order))])
      ensures orderIndex == old(orderIndex) - {order.orderId}
      ensures old(Indexed()) ==> Indexed()
    {
      hide PriceLevel.Valid, PriceLevel.Queue, Queues, OrdersOf, Drop, Distinct, AllIn, Agree;
      AtHome(order);
      ghost var rows, queues := Rows(levels), Queues(levels);
      ghost var p, k := Rank(order), levels[Rank(order)].Position(order);
      Displace(order);
      OrdersLeave(levels, rows, p, k);
      QueuesChange(levels, queues, p);
      RemovingAgrees(orderIndex, AllIn(rows), order);
      orderIndex := orderIndex - {order.orderId};
    }

    /** The surgery of a volume change: the other levels are untouched. */
    method Resize(order: Order, newVolume: Word64)
      requires Valid() && order in OrdersOf(levels)
      requires minPriceTick <= order.priceTick <= maxPriceTick
      requires order.level == levels[Rank(order)] && order in order.level.orders
      modifies order`volume, order.level`totalVolume
      ensures order.volume == newVolume
      ensures forall i :: 0 <= i < |levels| ==> levels[i].Valid()
      ensures forall i :: 0 <= i < |levels| && i != Rank(order) ==> levels[i].Queue() == old(levels[i].Queue())
      ensures levels[Rank(order)].Queue()
           == old(levels[Rank(order)].Queue()[levels[Rank(order)].Position(order) :=
                    order.View().(volume := newVolume)])
    {
      hide Wrap, Total, Chain, Views, Distinct, Queues, OrdersOf, Drop;
      ghost var p := Rank(order);
      forall j | 0 <= j < |levels| && j != p
        ensures order !in levels[j].orders
      {
      }
      ChangeVolume(order, newVolume);
      hide PriceLevel.Valid, PriceLevel.Queue;
    }

    method ModifyOrderVolume(order: Order, newVolume: Word64)
      requires Valid() && order in OrdersOf(levels)
      modifies order`volume, order.level`totalVolume
      ensures Valid() && order.volume == newVolume && OrdersOf(levels) == old(OrdersOf(levels))
      ensures minPriceTick <= order.priceTick <= maxPriceTick && order in levels[Rank(order)].orders
      ensures Book() == old(Book()[Rank(order) :=
                Book()[Rank(order)][levels[Rank(order)].Position(order) := order.View().(volume := newVolume)]])
    {
      hide PriceLevel.Valid, PriceLevel.Queue, Queues, OrdersOf, Drop, Distinct;
      AtHome(order);
      ghost var queues := Queues(levels);
      Resize(order, newVolume);
      QueuesChange(levels, queues, Rank(order));
    }

    /** Finds the one order with this id, if the index agrees with the levels. */
    method FindOrder(orderId: Word64) returns (order: Order?)
      ensures order == if orderId in orderIndex then orderIndex[orderId] else null
      ensures Indexed() ==>
                (order == null <==> forall o :: o in OrdersOf(levels) ==> o.orderId != orderId)
      ensures Indexed() && order != null ==> order.orderId == orderId && order in OrdersOf(levels)
    {
      if orderId in orderIndex {
        return orderIndex[orderId];
      }
      return null;
    }

    /** The scan behind every query by depth: the level with `depth` live levels before it. */
    static method AtDepth(ranked: seq<PriceLevel>, wanted: Side, depth: nat) returns (level: PriceLevel?)
      requires forall i :: 0 <= i < |ranked| ==> ranked[i].Valid()
      ensures var r := Ranks(Queues(ranked), wanted);
        level == if depth < |r| then ranked[r[depth]] else null
    {
      hide PriceLevel.Valid, Has, PriceLevel.Queue, Ranks, Queues;
      ghost var queues := Queues(ranked);
      var nonEmptyCount, i := 0, 0;
      RanksOfNone(queues, wanted);
      while i < |ranked|
        invariant i <= |ranked|
        invariant nonEmptyCount == |Ranks(queues[..i], wanted)| <= depth
      {
        RanksOfNext(queues, i, wanted);
        RanksPrefix(queues, i + 1, wanted);
        var live := ranked[i].HasOrdersOfSide(wanted);
        if live {
          if nonEmptyCount == depth {
            assert queues == Queues(ranked);
            return ranked[i];
          }
          nonEmptyCount := nonEmptyCount + 1;
        }
        i := i + 1;
      }
      assert queues[..i] == queues == Queues(ranked);
      return null;
    }

    /** The scan of the best-price queries: the first live level. */
    static method FirstLive(ranked: seq<PriceLevel>, wanted: Side) returns (level: PriceLevel?)
      requires forall i :: 0 <= i < |ranked| ==> ranked[i].Valid()
      ensures var r := Ranks(Queues(ranked), wanted);
        level == if r == [] then null else ranked[r[0]]
    {
      hide PriceLevel.Valid, Has, PriceLevel.Queue, Ranks, Queues;
      ghost var queues := Queues(ranked);
      RanksOfNone(queues, wanted);
      var i := 0;
      while i < |ranked|
        invariant i <= |ranked| && Ranks(queues[..i], wanted) == []
      {
        RanksOfNext(queues, i, wanted);
        RanksPrefix(queues, i + 1, wanted);
        var live := ranked[i].HasOrdersOfSide(wanted);
        if live {
          assert queues == Queues(ranked);
          return ranked[i];
        }
        i := i + 1;
      }
      assert queues[..i] == queues == Queues(ranked);
      return null;
    }

    /** The scans run over the book: upwards for asks, downwards for bids. */
    lemma {:induction false} ScansAreBook()
      requires Valid()
      ensures Queues(askLevels) == Book() && Queues(bidLevels) == Reversed(Book())
      ensures forall i :: 0 <= i < |bidLevels| ==> bidLevels[i].Valid() && bidLevels[i].priceTick == maxPriceTick - i
      ensures forall i :: 0 <= i < |askLevels| ==> askLevels[i].Valid() && askLevels[i].priceTick == minPriceTick + i
      ensures |Book()| == maxPriceTick - minPriceTick + 1
      ensures forall i :: 0 <= i < |askLevels| ==> askLevels[i].Queue() == Book()[i]
      ensures forall i :: 0 <= i < |bidLevels| ==> bidLevels[i].Queue() == Reversed(Book())[i]
    {
      hide PriceLevel.Valid, PriceLevel.Queue, OrdersOf;
    }

    method GetBidPriceAtDepth(depth: nat) returns (price: Word64)
      requires Valid()
      ensures var prices := BidPrices(Book(), minPriceTick);
        price == (if depth < |prices| then prices[depth] else 0) && (price == 0 <==> depth >= |prices|)
    {
      hide PriceLevel.Valid, PriceLevel.Queue, OrdersOf, Queues, Ranks, Has;
      SentinelsAreNoPrices();
      ScansAreBook();
      var level := AtDepth(bidLevels, Buy, depth);
      ScansAreBook();
      ghost var r := Ranks(Reversed(Book()), Buy);
      assert level == if depth < |r| then bidLevels[r[depth]] else null;
      return if level == null then 0 else level.priceTick;
    }

    method GetAskPriceAtDepth(depth: nat) returns (price: Word64)
      requires Valid()
      ensures var prices := AskPrices(Book(), minPriceTick);
        price == (if depth < |prices| then prices[depth] else MAX64) && (price == MAX64 <==> depth >= |prices|)
    {
      hide PriceLevel.Valid, PriceLevel.Queue, OrdersOf, Queues, Ranks, Has;
      SentinelsAreNoPrices();
      ScansAreBook();
      var level := AtDepth(askLevels, Sell, depth);
      ScansAreBook();
      ghost var r := Ranks(Book(), Sell);
      assert level == if depth < |r| then askLevels[r[depth]] else null;
      return if level == null then MAX64 else level.priceTick;
    }

    method GetBidVolumeAtDepth(depth: nat) returns (volume: Word64)
      requires Valid()
      ensures var volumes := BidVolumes(Book());
        volume == if depth < |volumes| then volumes[depth] else 0
      ensures var prices := BidPrices(Book(), minPriceTick);
        if depth < |prices| then
          && minPriceTick <= prices[depth] <= maxPriceTick
          && volume == Wrap(TotalOf(Book()[prices[depth] - minPriceTick], Buy))
        else volume == 0
    {
      hide PriceLevel.Valid, PriceLevel.Queue, OrdersOf, Queues, Ranks, Has, TotalOf, Wrap, BidPrices, BidVolumes;
      ghost var book := Book();
      ScansAreBook();
      var level := AtDepth(bidLevels, Buy, depth);
      ScansAreBook();
      assert Book() == book;
      ghost var r := Ranks(Reversed(book), Buy);
      assert level == if depth < |r| then bidLevels[r[depth]] else null;
      BidVolumeAtPrice(book, minPriceTick, depth);
      if level == null {
        assert Book() == book;
        return 0;
      }
      volume := level.GetVolumeBySide(Buy);
      assert Book() == book;
    }

    method GetAskVolumeAtDepth(depth: nat) returns (volume: Word64)
      requires Valid()
      ensures var volumes := AskVolumes(Book());
        volume == if depth < |volumes| then volumes[depth] else 0
      ensures var prices := AskPrices(Book(), minPriceTick);
        if depth < |prices| then
          && minPriceTick <= prices[depth] <= maxPriceTick
          && volume == Wrap(TotalOf(Book()[prices[depth] - minPriceTick], Sell))
        else volume == 0
    {
      hide PriceLevel.Valid, PriceLevel.Queue, OrdersOf, Queues, Ranks, Has, TotalOf, Wrap, AskPrices, AskVolumes;
      ghost var book := Book();
      ScansAreBook();
      var level := AtDepth(askLevels, Sell, depth);
      ScansAreBook();
      assert Book() == book;
      ghost var r := Ranks(book, Sell);
      assert level == if depth < |r| then askLevels[r[depth]] else null;
      AskVolumeAtPrice(book, minPriceTick, depth);
      if level == null {
        assert Book() == book;
        return 0;
      }
      volume := level.GetVolumeBySide(Sell);
      assert Book() == book;
    }

    /** The best bid is the bid at depth 0. */
    method GetBestBid() returns (price: Word64)
      requires Valid()
      ensures var prices := BidPrices(Book(), minPriceTick);
        price == if prices == [] then 0 else prices[0]
    {
      hide PriceLevel.Valid, PriceLevel.Queue, OrdersOf, Queues, Ranks, Has;
      ScansAreBook();
      var level := FirstLive(bidLevels, Buy);
      ScansAreBook();
      ghost var r := Ranks(Reversed(Book()), Buy);
      assert level == if 0 < |r| then bidLevels[r[0]] else null;
      return if level == null then 0 else level.priceTick;
    }

    method GetBestAsk() returns (price: Word64)
      requires Valid()
      ensures var prices := AskPrices(Book(), minPriceTick);
        price == if prices == [] then MAX64 else prices[0]
    {
      hide PriceLevel.Valid, PriceLevel.Queue, OrdersOf, Queues, Ranks, Has;
      ScansAreBook();
      var level := FirstLive(askLevels, Sell);
      ScansAreBook();
      ghost var r := Ranks(Book(), Sell);
      assert level == if 0 < |r| then askLevels[r[0]] else null;
      return if level == null then MAX64 else level.priceTick;
    }

    /** The volume of the best bid is the one at depth 0. */
    method GetBestBidVolume() returns (volume: Word64)
      requires Valid()
      ensures var prices := BidPrices(Book(), minPriceTick);
        if prices == [] then volume == 0
        else && minPriceTick <= prices[0] <= maxPriceTick
             && volume == Wrap(TotalOf(Book()[prices[0] - minPriceTick], Buy))
    {
      hide PriceLevel.Valid, PriceLevel.Queue, OrdersOf, Queues, Ranks, Has, TotalOf, Wrap;
      ScansAreBook();
      var level := FirstLive(bidLevels, Buy);
      ScansAreBook();
      ghost var r := Ranks(Reversed(Book()), Buy);
      assert level == if r != [] then bidLevels[r[0]] else null;
      if level == null {
        return 0;
      }
      ghost var book := Book();
      volume := level.GetVolumeBySide(Buy);
      assert Book() == book;
    }

    method GetBestAskVolume() returns (volume: Word64)
      requires Valid()
      ensures var prices := AskPrices(Book(), minPriceTick);
        if prices == [] then volume == 0
        else && minPriceTick <= prices[0] <= maxPriceTick
             && volume == Wrap(TotalOf(Book()[prices[0] - minPriceTick], Sell))
    {
      hide PriceLevel.Valid, PriceLevel.Queue, OrdersOf, Queues, Ranks, Has, TotalOf, Wrap;
      ScansAreBook();
      var level := FirstLive(askLevels, Sell);
      ScansAreBook();
      ghost var r := Ranks(Book(), Sell);
      assert level == if r != [] then askLevels[r[0]] else null;
      if level == null {
        return 0;
      }
      ghost var book := Book();
      volume := level.GetVolumeBySide(Sell);
      assert Book() == book;
    }

    /** No price of the ladder can be mistaken for a sentinel. */
    lemma {:induction false} SentinelsAreNoPrices()
      requires Valid()
      ensures var bids := BidPrices(Book(), minPriceTick); forall d :: 0 <= d < |bids| ==> bids[d] != 0
      ensures var asks := AskPrices(Book(), minPriceTick); forall d :: 0 <= d < |asks| ==> asks[d] != MAX64
    {
      hide PriceLevel.Valid, PriceLevel.Queue, OrdersOf, Queues, Ranks, Has, BidPrices, AskPrices;
      ScansAreBook();
      BidsFall(Book(), minPriceTick);
      AsksRise(Book(), minPriceTick);
      var bids, asks := BidPrices(Book(), minPriceTick), AskPrices(Book(), minPriceTick);
      assert forall d :: 0 <= d < |bids| ==> bids[d] in bids;
      assert forall d :: 0 <= d < |asks| ==> asks[d] in asks;
    }

    /** Volumes by depth, cached totals and indexed orders all tell the same total. */
    lemma {:induction false} OneVolume()
      requires Valid() && Indexed()
      ensures Wrap(Sum(BidVolumes(Book())) + Sum(AskVolumes(Book()))) == Wrap(Sum(CachedTotals(levels)))
      ensures Wrap(Sum(CachedTotals(levels))) == Wrap(IndexTotal(map id | id in orderIndex :: orderIndex[id].View()))
    {
      hide Wrap, Sum, IndexTotal, PriceLevel.Valid, PriceLevel.Queue, OrdersOf, Queues, BookTotal, LevelTotals,
           BidVolumes, AskVolumes, Flat, Total;
      DepthsMakeTotals(Book());
      CachedAreTotals(levels);
      var index := map id | id in orderIndex :: orderIndex[id].View();
      FlatTotal(Book());
      FlatViews(levels);
      hide Indexed;
      FlatIsIndexed();
      IndexedVolume(index, Flat(Book()));
    }

    lemma {:induction false} FlatIsIndexed()
      requires Valid() && Indexed()
      ensures Indexes(map id | id in orderIndex :: orderIndex[id].View(), Views(FlatOrders(levels)))
    {
      hide PriceLevel.Valid, PriceLevel.Queue, OrdersOf;
      FlatDistinct(levels);
      FlatIsAll(levels);
      AgreeIndexes(orderIndex, FlatOrders(levels));
    }
  }

  function CachedTotals(levels: seq<PriceLevel>): (totals: seq<nat>)
    reads levels`totalVolume
  {
    if levels == [] then []
    else
      var front := levels[..|levels| - 1];
      assert forall i :: 0 <= i < |front| ==> front[i] == levels[i];
      CachedTotals(front) + [levels[|levels| - 1].totalVolume]
  }

  lemma {:induction false} CachedAreTotals(levels: seq<PriceLevel>)
    requires forall i :: 0 <= i < |levels| ==> levels[i].Valid()
    ensures CachedTotals(levels) == LevelTotals(Queues(levels))
  {
    hide Wrap, Total, Chain, Views;
    if levels != [] {
      var front := levels[..|levels| - 1];
      assert forall i :: 0 <= i < |front| ==> front[i] == levels[i];
      CachedAreTotals(front);
      assert levels[|levels| - 1].Valid();
    }
  }

  /** Every order of the ladder, level by level. */
  ghost function FlatOrders(levels: seq<PriceLevel>): seq<Order>
    reads levels`orders
  {
    if levels == [] then []
    else
      var front := levels[..|levels| - 1];
      assert forall i :: 0 <= i < |front| ==> front[i] == levels[i];
      FlatOrders(front) + levels[|levels| - 1].orders
  }

  lemma {:induction false} FlatIsAll(levels: seq<PriceLevel>)
    ensures (set o | o in FlatOrders(levels)) == OrdersOf(levels)
  {
    if levels != [] {
      var front, last := levels[..|levels| - 1], levels[|levels| - 1];
      assert forall i :: 0 <= i < |front| ==> front[i] == levels[i];
      FlatIsAll(front);
      assert OrdersOf(levels) == OrdersOf(front) + set o | o in last.orders;
      assert FlatOrders(levels) == FlatOrders(front) + last.orders;
    }
  }

  lemma {:induction false} ViewsConcat(a: seq<Order>, b: seq<Order>)
    ensures Views(a + b) == Views(a) + Views(b)
  {
  }

  lemma {:induction false} FlatViews(levels: seq<PriceLevel>)
    ensures Flat(Queues(levels)) == Views(FlatOrders(levels))
  {
    if levels != [] {
      var n := |levels| - 1;
      FlatViews(levels[..n]);
      assert Queues(levels)[..n] == Queues(levels[..n]);
      ViewsConcat(FlatOrders(levels[..n]), levels[n].orders);
    }
  }

  lemma {:induction false} AgreeIndexes(index: map<Word64, Order>, orders: seq<Order>)
    requires Distinct(orders)
    requires Agree(index, set o | o in orders)
    ensures Indexes(map id | id in index :: index[id].View(), Views(orders))
  {
    hide Views;
    var items := Views(orders);
    forall i | 0 <= i < |items|
      ensures items[i].id in index && index[items[i].id] == orders[i]
    {
    }
    forall id | id in index
      ensures exists i :: 0 <= i < |items| && items[i].id == id
    {
      var i :| 0 <= i < |orders| && orders[i] == index[id];
      assert items[i].id == id;
    }
  }

  lemma {:induction false} DistinctConcat(a: seq<Order>, b: seq<Order>)
    requires Distinct(a) && Distinct(b) && forall o :: o in a ==> o !in b
    ensures Distinct(a + b)
  {
    assert forall i :: 0 <= i < |a| ==> a[i] in a;
  }

  lemma {:induction false} FlatDistinct(levels: seq<PriceLevel>)
    requires forall i :: 0 <= i < |levels| ==> levels[i].Valid()
    requires forall i, j :: 0 <= i < j < |levels| ==> levels[i].priceTick != levels[j].priceTick
    ensures Distinct(FlatOrders(levels))
  {
    hide Chain, Views, Total, Wrap;
    if levels != [] {
      var n := |levels| - 1;
      var front, last := levels[..n], levels[n];
      assert forall i :: 0 <= i < |front| ==> front[i] == levels[i];
      FlatDistinct(front);
      FlatIsAll(front);
      assert last.Valid();
      forall o | o in OrdersOf(front) ensures o !in last.orders {
        var i :| 0 <= i < |front| && o in front[i].orders;
        assert front[i].Valid();
      }
      DistinctConcat(FlatOrders(front), last.orders);
    }
  }

  // ----- Runs -----

  /** What a client does: add an order, or remove or resize the one it finds under an id, if any. */
  datatype Edit =
    | Add(id: Word64, price: Word64, side: Side, volume: Word64)
    | RemoveById(id: Word64)
    | ResizeById(id: Word64, volume: Word64)

  /** The ids in the ladder after the edits. */
  function IdsAfter(edits: seq<Edit>): set<Word64> {
    if edits == [] then {} else NextIds(IdsAfter(edits[..|edits| - 1]), edits[|edits| - 1])
  }

  function NextIds(ids: set<Word64>, edit: Edit): set<Word64> {
    match edit
    case Add(id, _, _, _) => ids + {id}
    case RemoveById(id) => ids - {id}
    case ResizeById(_, _) => ids
  }

  /** Every order is added within the price range and under an id that is not in use. */
  ghost predicate Unused(edits: seq<Edit>, low: Word64, high: Word64) {
    forall i :: 0 <= i < |edits| && edits[i].Add? ==>
      low <= edits[i].price <= high && edits[i].id !in IdsAfter(edits[..i])
  }

  lemma {:induction false} IdsNext(edits: seq<Edit>, i: nat)
    requires i < |edits|
    ensures IdsAfter(edits[..i + 1]) == NextIds(IdsAfter(edits[..i]), edits[i])
  {
    assert edits[..i + 1][..i] == edits[..i];
  }

  lemma {:induction false} AgreeOnIds(index: map<Word64, Order>, standing: set<Order>, id: Word64)
    requires Agree(index, standing)
    ensures id !in index <==> forall o :: o in standing ==> o.orderId != id
  {
  }

  method AddNew(ladder: PriceLadder, id: Word64, price: Word64, side: Side, volume: Word64)
    requires ladder.Valid() && ladder.Indexed()
    requires id !in ladder.orderIndex && ladder.minPriceTick <= price <= ladder.maxPriceTick
    modifies ladder`orderIndex, ladder.levels, OrdersOf(ladder.levels)
    ensures ladder.Valid() && ladder.Indexed()
    ensures ladder.orderIndex.Keys == old(ladder.orderIndex).Keys + {id}
    ensures fresh(OrdersOf(ladder.levels) - old(OrdersOf(ladder.levels)))
  {
    hide PriceLevel.Valid, PriceLevel.Queue, Queues, OrdersOf, Agree;
    var order := new Order(id, price, side, volume);
    AgreeOnIds(ladder.orderIndex, OrdersOf(ladder.levels), id);
    ladder.TailsStand();
    ladder.AddOrder(order);
  }

  method RemoveFound(ladder: PriceLadder, id: Word64)
    requires ladder.Valid() && ladder.Indexed()
    modifies ladder`orderIndex, ladder.levels, OrdersOf(ladder.levels)
    ensures ladder.Valid() && ladder.Indexed()
    ensures ladder.orderIndex.Keys == old(ladder.orderIndex).Keys - {id}
    ensures OrdersOf(ladder.levels) <= old(OrdersOf(ladder.levels))
  {
    hide PriceLevel.Valid, PriceLevel.Queue, Queues, OrdersOf;
    var order := ladder.FindOrder(id);
    if order != null {
      ladder.NeighboursInLadder(order);
      ladder.RemoveOrder(order);
    }
  }

  method ResizeFound(ladder: PriceLadder, id: Word64, volume: Word64)
    requires ladder.Valid() && ladder.Indexed()
    modifies ladder.levels, OrdersOf(ladder.levels)
    ensures ladder.Valid() && ladder.Indexed()
    ensures OrdersOf(ladder.levels) == old(OrdersOf(ladder.levels))
    ensures id in ladder.orderIndex ==> ladder.orderIndex[id].volume == volume
  {
    hide PriceLevel.Valid, PriceLevel.Queue, Queues, OrdersOf;
    var order := ladder.FindOrder(id);
    if order != null {
      ladder.NeighboursInLadder(order);
      ladder.ModifyOrderVolume(order, volume);
    }
  }

  method EditOnce(ladder: PriceLadder, edit: Edit)
    requires ladder.Valid() && ladder.Indexed()
    requires edit.Add? ==>
               edit.id !in ladder.orderIndex && ladder.minPriceTick <= edit.price <= ladder.maxPriceTick
    modifies ladder`orderIndex, ladder.levels, OrdersOf(ladder.levels)
    ensures ladder.Valid() && ladder.Indexed()
    ensures ladder.orderIndex.Keys == NextIds(old(ladder.orderIndex).Keys, edit)
    ensures fresh(OrdersOf(ladder.levels) - old(OrdersOf(ladder.levels)))
  {
    hide PriceLevel.Valid, Queues, OrdersOf, Agree, PriceLadder.Laid;
    match edit
    case Add(id, price, side, volume) => AddNew(ladder, id, price, side, volume);
    case RemoveById(id) => RemoveFound(ladder, id);
    case ResizeById(id, volume) => ResizeFound(ladder, id, volume);
  }

  /** A new ladder after any edits that add under unused ids: levels and index are sound, agree, and hold
      exactly the ids that should be there, so all volumes by depth and totals tell the same. */
  method EditLadder(low: Word64, high: Word64, edits: seq<Edit>) returns (ladder: PriceLadder)
    requires 0 < low <= high < MAX64 && Unused(edits, low, high)
    ensures fresh(ladder) && ladder.Valid() && ladder.Indexed()
    ensures ladder.orderIndex.Keys == IdsAfter(edits)
  {
    hide PriceLevel.Valid, Queues, OrdersOf, Agree, IdsAfter, PriceLadder.Laid;
    ladder := new PriceLadder(low, high);
    IdsOfNone(edits);
    var i := 0;
    while i < |edits|
      invariant 0 <= i <= |edits|
      invariant fresh(ladder) && fresh(ladder.levels) && fresh(OrdersOf(ladder.levels))
      invariant ladder.Valid() && ladder.Indexed()
      invariant ladder.minPriceTick == low && ladder.maxPriceTick == high
      invariant ladder.orderIndex.Keys == IdsAfter(edits[..i])
    {
      IdsNext(edits, i);
      ghost var standing := OrdersOf(ladder.levels);
      label Before:
      EditOnce(ladder, edits[i]);
      forall o | o in OrdersOf(ladder.levels) && o !in standing ensures fresh(o) {
        assert fresh@Before(o);
      }
      i := i + 1;
    }
    assert edits[..i] == edits;
  }

  lemma {:induction false} IdsOfNone(edits: seq<Edit>)
    ensures IdsAfter(edits[..0]) == {}
  {
  }

  method LadderOfOne(id: Word64) returns (ladder: PriceLadder, first: Order)
    ensures fresh(ladder) && fresh(ladder.levels) && fresh(first)
    ensures ladder.Valid() && ladder.Indexed() && ladder.minPriceTick == 1 && ladder.maxPriceTick == 2
    ensures OrdersOf(ladder.levels) == {first} && first.orderId == id
  {
    hide PriceLevel.Valid, PriceLevel.Queue, Queues, OrdersOf, Agree;
    ladder := new PriceLadder(1, 2);
    first := new Order(id, 1, Buy, 10);
    ladder.TailsStand();
    ladder.AddOrder(first);
  }

  /** The failing case: of two orders with one id, only the first is in the index. */
  method DuplicateIdIsNotIndexed(id: Word64) returns (ladder: PriceLadder, second: Order)
    ensures fresh(ladder) && ladder.Valid() && !ladder.Indexed()
    ensures second in OrdersOf(ladder.levels)
    ensures second.orderId in ladder.orderIndex && ladder.orderIndex[second.orderId] != second
  {
    hide PriceLevel.Valid, PriceLevel.Queue, Queues, OrdersOf;
    var first: Order;
    ladder, first := LadderOfOne(id);
    second := new Order(id, 2, Sell, 20);
    ladder.TailsStand();
    ladder.AddOrder(second);
  }
}
