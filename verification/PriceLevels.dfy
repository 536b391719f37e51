/** One price level: an intrusive doubly linked list of orders with a cached total volume. */
module PriceLevels {

  import opened Words
  import opened PriceItems

  class Order {
    var prev: Order?
    var next: Order?
    const orderId: Word64
    const priceTick: Word64
    const side: Side
    var volume: Word64
    var level: PriceLevel?

    constructor (orderId: Word64, priceTick: Word64, side: Side, volume: Word64)
      ensures View() == Item(orderId, priceTick, side, volume)
      ensures level == null && prev == null && next == null
    {
      this.orderId, this.priceTick, this.side, this.volume := orderId, priceTick, side, volume;
      prev, next, level := null, null, null;
    }

    ghost function View(): Item
      reads this`volume
    {
      Item(orderId, priceTick, side, volume)
    }
  }

  /** The orders form one chain from `head` to `tail`, each pointing back at the one before it. */
  ghost predicate Chain(orders: seq<Order>, head: Order?, tail: Order?)
    reads orders`prev, orders`next
  {
    if orders == [] then
      head == null && tail == null
    else
      && head == orders[0] && tail == orders[|orders| - 1]
      && orders[0].prev == null && orders[|orders| - 1].next == null
      && (forall i {:trigger orders[i].next} :: 0 <= i < |orders| - 1 ==> orders[i].next == orders[i + 1])
      && (forall i {:trigger orders[i].prev} :: 0 < i < |orders| ==> orders[i].prev == orders[i - 1])
  }

  ghost predicate Distinct(orders: seq<Order>) {
    forall i, j :: 0 <= i < j < |orders| ==> orders[i] != orders[j]
  }

  ghost function Views(orders: seq<Order>): (items: seq<Item>)
    reads orders`volume
    ensures |items| == |orders|
    ensures forall i :: 0 <= i < |items| ==> items[i] == orders[i].View()
  {
    if orders == [] then [] else [orders[0].View()] + Views(orders[1..])
  }

  lemma {:induction false} ViewsSnoc(orders: seq<Order>, last: Order)
    ensures Views(orders + [last]) == Views(orders) + [last.View()]
  {
  }

  lemma {:induction false} ViewsDrop(orders: seq<Order>, k: nat)
    requires k < |orders|
    ensures Views(Drop(orders, k)) == Drop(Views(orders), k)
  {
  }

  lemma {:induction false} DropIsWithout(orders: seq<Order>, k: nat)
    requires k < |orders| && Distinct(orders)
    ensures forall o :: o in Drop(orders, k) <==> o in orders && o != orders[k]
    ensures Distinct(Drop(orders, k))
  {
    forall o | o in orders && o != orders[k]
      ensures o in Drop(orders, k)
    {
      var i :| 0 <= i < |orders| && orders[i] == o;
      assert Drop(orders, k)[if i < k then i else i - 1] == o;
    }
  }

  class PriceLevel {
    const priceTick: Word64
    var totalVolume: Word64
    var head: Order?
    var tail: Order?

    /** The orders in order of arrival. */
    ghost var orders: seq<Order>

    constructor (price: Word64)
      ensures Valid() && orders == [] && priceTick == price
    {
      priceTick := price;
      totalVolume, head, tail, orders := 0, null, null, [];
    }

    ghost predicate Valid()
      reads this, orders
    {
      && Chain(orders, head, tail)
      && (forall i :: 0 <= i < |orders| ==> orders[i].level == this)
      && Distinct(orders)
      && totalVolume == Wrap(Total(Views(orders)))
    }

    ghost function Queue(): seq<Item>
      reads this`orders, orders`volume
    {
      Views(orders)
    }

    /** The pointer part of adding: hang `order` behind the tail. */
    method Link(order: Order)
      requires Chain(orders, head, tail) && Distinct(orders) && order !in orders
      modifies `head, `tail, order`prev, order`next, (if tail == null then {} else {tail})`next
      ensures Chain(orders + [order], head, tail)
    {
      order.prev := tail;
      order.next := null;
      if tail != null {
        tail.next := order;
      } else {
        head := order;
      }
      tail := order;
    }

    /** The pointer part of removing: close the chain over `order`, the `k`-th. */
    method Unlink(order: Order, ghost k: nat)
      requires Chain(orders, head, tail) && Distinct(orders) && k < |orders| && orders[k] == order
      modifies `head, `tail, order`prev, order`next,
               (if order.prev == null then {} else {order.prev})`next,
               (if order.next == null then {} else {order.next})`prev
      ensures Chain(Drop(orders, k), head, tail)
      ensures order.prev == null && order.next == null
    {
      hide Drop;
      if order.prev != null {
        order.prev.next := order.next;
      } else {
        head := order.next;
      }
      if order.next != null {
        order.next.prev := order.prev;
      } else {
        tail := order.prev;
      }
      order.prev := null;
      order.next := null;
    }

    method AddOrder(order: Order)
      requires Valid() && order !in orders
      modifies this, order`level, order`prev, order`next, (if tail == null then {} else {tail})`next
      ensures Valid() && orders == old(orders) + [order]
      ensures Queue() == old(Queue()) + [order.View()]
    {
      hide Wrap, Total, Chain, Views;
      ghost var items := Views(orders);
      order.level := this;
      Link(order);
      CachedPlus(items, order.View());
      ViewsSnoc(orders, order);
      totalVolume := Wrap(totalVolume + order.volume);
      orders := orders + [order];
    }

    /** Where `order` stands in the list. */
    ghost function Position(order: Order): (k: nat)
      reads this`orders
      requires order in orders
      ensures k < |orders| && orders[k] == order
    {
      var k: nat :| k < |orders| && orders[k] == order;
      k
    }

    /** The bookkeeping part of removing: `order`, the `k`-th and already unlinked, leaves the total. */
    method Discount(order: Order, ghost k: nat)
      requires k < |orders| && orders[k] == order && Distinct(orders) && Chain(Drop(orders, k), head, tail)
      requires forall i :: 0 <= i < |orders| ==> orders[i].level == this
      requires totalVolume == Wrap(Total(Queue()))
      modifies `totalVolume, `orders, order`level
      ensures Valid() && order.level == null
      ensures orders == Drop(old(orders), k) && Queue() == Drop(old(Queue()), k)
    {
      hide Wrap, Total, Chain, Views;
      CachedMinus(Queue(), k);
      ViewsDrop(orders, k);
      DropIsWithout(orders, k);
      hide Drop;
      totalVolume := Wrap(totalVolume + WORD64 - order.volume);
      order.level := null;
      orders := Drop(orders, k);
      assert forall i :: 0 <= i < |orders| ==> orders[i] in orders;
    }

    method RemoveOrder(order: Order)
      requires Valid() && order in orders
      modifies this, order`level, order`prev, order`next,
               (if order.prev == null then {} else {order.prev})`next,
               (if order.next == null then {} else {order.next})`prev
      ensures Valid() && order.level == null && order.prev == null && order.next == null
      ensures orders == Drop(old(orders), old(Position(order)))
      ensures Queue() == Drop(old(Queue()), old(Position(order)))
    {
      hide Wrap, Total, Chain, Views, Drop;
      ghost var k := Position(order);
      Unlink(order, k);
      Discount(order, k);
    }

    /** Whether a walk down the list has reached `at`, the `i`-th order or the end. */
    ghost predicate Walking(at: Order?, i: nat)
      reads this`orders
    {
      i <= |orders| && at == if i < |orders| then orders[i] else null
    }

    lemma {:induction false} WalkStarts()
      requires Valid()
      ensures Walking(head, 0)
    {
    }

    lemma {:induction false} WalkGoesOn(i: nat)
      requires Valid() && i < |orders|
      ensures Walking(orders[i].next, i + 1)
    {
    }

    method HasOrdersOfSide(wanted: Side) returns (found: bool)
      requires Valid()
      ensures found == Has(Queue(), wanted)
      ensures found <==> exists o :: o in orders && o.side == wanted
    {
      hide Wrap, TotalOf, Total, Views;
      WalkStarts();
      var current := head;
      ghost var i: nat := 0;
      while current != null
        invariant Walking(current, i)
        invariant forall k :: 0 <= k < i ==> orders[k].side != wanted
        decreases |orders| - i
      {
        if current.side == wanted {
          assert Queue()[i].side == wanted;
          return true;
        }
        WalkGoesOn(i);
        current, i := current.next, i + 1;
      }
      return false;
    }

    method GetVolumeBySide(wanted: Side) returns (volume: Word64)
      requires Valid()
      ensures volume == Wrap(TotalOf(Queue(), wanted))
    {
      hide Wrap, TotalOf, Total, Views;
      ghost var items := Queue();
      VolumeOfNone(items, wanted);
      WalkStarts();
      volume := 0;
      var current := head;
      ghost var i: nat := 0;
      while current != null
        invariant Walking(current, i)
        invariant volume == Wrap(TotalOf(items[..i], wanted))
        decreases |orders| - i
      {
        VolumeOfNext(items, i, wanted);
        if current.side == wanted {
          volume := Wrap(volume + current.volume);
        }
        WalkGoesOn(i);
        current, i := current.next, i + 1;
      }
      assert items[..i] == items;
    }
  }

  lemma {:induction false} TailStands(level: PriceLevel)
    requires level.Valid()
    ensures level.tail != null ==> level.tail in level.orders
  {
    if level.orders != [] {
      assert level.tail == level.orders[|level.orders| - 1];
    }
  }

  lemma {:induction false} NeighboursStand(level: PriceLevel, order: Order)
    requires level.Valid() && order in level.orders
    ensures order.prev != null ==> order.prev in level.orders
    ensures order.next != null ==> order.next in level.orders
  {
    var k :| 0 <= k < |level.orders| && level.orders[k] == order;
    assert k > 0 ==> order.prev == level.orders[k - 1];
    assert k < |level.orders| - 1 ==> order.next == level.orders[k + 1];
  }

  /** Changes the volume of an order and the cached total of its level, in two wrapping steps. */
  method ChangeVolume(order: Order, newVolume: Word64)
    requires order.level != null && order.level.Valid() && order in order.level.orders
    modifies order`volume, order.level`totalVolume
    ensures order.level.Valid() && order.volume == newVolume
    ensures order.level.Queue()
         == old(order.level.Queue()[order.level.Position(order) := order.View().(volume := newVolume)])
  {
    hide Wrap, Total, Views;
    var level := order.level;
    ghost var k := level.Position(order);
    ghost var items := Views(level.orders);
    CachedChange(items, k, newVolume);
    level.totalVolume := Wrap(level.totalVolume + WORD64 - order.volume);
    level.totalVolume := Wrap(level.totalVolume + newVolume);
    order.volume := newVolume;
    assert Views(level.orders) == items[k := items[k].(volume := newVolume)];
  }
}
