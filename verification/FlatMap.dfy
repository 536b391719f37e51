/** The flat map: a sorted array with binary search, shifting inserts and erases, and eviction at the end. */
module FlatMaps {

  import opened Words
  import opened DepthValues
  import opened DepthStreams

  /** A pointer into the array, or null. */
  datatype Slot = Nowhere | At(index: nat)

  class FlatMap {
    const order: SortOrder
    const capacity: Word32
    var size: Word32
    const data: array<Node>

    /** With at most 2^31 slots the midpoint sum of the binary search cannot wrap. */
    ghost predicate Valid()
      reads this`size, data
    {
      && 0 < capacity <= 0x8000_0000
      && data.Length == capacity
      && size <= capacity
      && Sorted(order, data[..size])
    }

    ghost function View(): Depth
      reads this`size, data
      requires data.Length > 0
    {
      if size > data.Length then Broken
      else Shown(data[..size], data[0])
    }

    constructor (order: SortOrder, capacity: Word32)
      requires 0 < capacity <= 0x8000_0000
      ensures Valid() && View() == Fresh && fresh(data)
      ensures this.order == order && this.capacity == capacity
    {
      this.order, this.capacity, size := order, capacity, 0;
      data := new Node[capacity](_ => Node(0.0, 0.0));
    }

    /** The first position whose key is no better than `key`. */
    method FindInsertIndex(key: real) returns (left: Word32)
      requires Valid()
      ensures left <= size
      ensures forall i :: 0 <= i < left ==> Before(order, data[i].key, key)
      ensures forall i :: left <= i < size ==> Compare(order, key, data[i].key)
    {
      left := 0;
      var right: Word32 := size;
      while left < right
        invariant left <= right <= size
        invariant forall i :: 0 <= i < left ==> Before(order, data[i].key, key)
        invariant forall i :: right <= i < size ==> Compare(order, key, data[i].key)
      {
        var mid := (left + right) % WORD32 / 2;
        assert data[..size][mid] == data[mid];
        assert forall i :: 0 <= i < size ==> data[..size][i] == data[i];
        if Compare(order, key, data[mid].key) {
          right := mid;
        } else {
          left := mid + 1;
        }
      }
    }

    /** Moves the entries from `index` up by one, the last one off the end if the array is full, and
        writes `n` there. */
    method ShiftIn(index: nat, n: Node)
      requires Valid() && index <= size && index < capacity
      modifies this`size, data
      ensures size <= capacity && data[..size] == InsertedRow(capacity, old(data[..size]), index, n)
      ensures index < size && data[index] == n
    {
      ghost var s := data[..size];
      size := if capacity == size then size else size + 1;
      var i := size - 1;
      while i > index
        modifies data
        invariant index <= i < size
        invariant forall j :: 0 <= j <= i && j < |s| ==> data[j] == s[j]
        invariant |s| <= size <= |s| + 1 && forall j :: i < j < size ==> data[j] == s[j - 1]
      {
        data[i] := data[i - 1];
        i := i - 1;
      }
      data[index] := n;
    }

    method Push(key: real, value: real) returns (slot: Slot)
      requires Valid()
      modifies this`size, data
      ensures Valid() && View() == Pushed(order, capacity, old(View()), key, value)
      ensures slot == Nowhere <==> key !in Levels(View()) && !Hits(old(View()), key)
      ensures slot.At? ==> slot.index < capacity && data[slot.index].key == key
      ensures slot.At? ==> if Hits(old(View()), key) then slot.index == size == 0 else slot.index < size
    {
      hide Pushed, MapOf;
      var n := Node(key, value);
      ghost var s, first := data[..size], data[0];
      if size > 0 && !Compare(order, key, data[size - 1].key) {
        PushOfNewKey(order, capacity, s, first, size, n);
        if size == capacity {
          assert data[..size] == InsertedRow(capacity, s, |s|, n);
          return Nowhere;
        }
        data[size] := n;
        size := size + 1;
        assert data[..size] == InsertedRow(capacity, s, |s|, n);
        return At(size - 1);
      }
      var idxInsert := FindInsertIndex(key);
      if capacity == idxInsert || key == data[idxInsert].key {
        if size > 0 {
          PushOfOldKey(order, capacity, s, first, idxInsert, value);
        } else {
          HitsShown(order, capacity, first, value);
        }
        return At(idxInsert);
      }
      PushOfNewKey(order, capacity, s, first, idxInsert, n);
      ShiftIn(idxInsert, n);
      return At(idxInsert);
    }

    /** Moves the entries after `index` down by one. */
    method ShiftOut(index: nat)
      requires Valid() && index < size
      modifies this`size, data
      ensures size == old(size) - 1
      ensures data[..size] == old(data[..size][..index] + data[..size][index + 1..])
      ensures size == 0 ==> data[0] == old(data[0])
    {
      ghost var s := data[..size];
      var n := index + 1;
      while n < size
        modifies data
        invariant index < n <= size
        invariant forall j :: 0 <= j < index ==> data[j] == s[j]
        invariant forall j :: index <= j < n - 1 ==> data[j] == s[j + 1]
        invariant forall j :: n - 1 <= j < size && (j > index || n == index + 1) ==> data[j] == s[j]
      {
        data[n - 1] := data[n];
        n := n + 1;
      }
      size := size - 1;
    }

    /** Erases a key. On an empty map the leftover slot may match, and the size wraps. */
    method Erase(key: real) returns (erased: bool)
      requires Valid()
      modifies this`size, data
      ensures View() == Erased(old(View()), key)
      ensures !View().Broken? ==> Valid()
      ensures erased <==> key in Levels(old(View())) || Hits(old(View()), key)
    {
      hide Erased, MapOf;
      ghost var s, first := data[..size], data[0];
      if size > 0 && (!Compare(order, data[0].key, key) || !Compare(order, key, data[size - 1].key)) {
        EraseOfNoKey(order, s, first, key);
        return false;
      }
      var idx := FindInsertIndex(key);
      if key != data[idx].key {
        EraseOfNoKey(order, s, first, key);
        return false;
      }
      if size == 0 {
        assert s == [];
        HitsShown(order, capacity, first, 0.0);
        size := WORD32 - 1;
        return true;
      }
      EraseOfKey(order, s, first, idx);
      ShiftOut(idx);
      return true;
    }

    /** The best entry, if there is one. */
    method GetBestPrice() returns (best: Option<Node>)
      requires Valid()
      ensures IsBestOf(order, Levels(View()), best)
    {
      MapOfEntries(order, data[..size]);
      if size == 0 {
        return None;
      }
      assert data[..size][0] == data[0];
      return Some(data[0]);
    }

    /** One depth update of a side. */
    method HandlePriceUpdate(price: real, quantity: real)
      requires Valid()
      modifies this`size, data
      ensures View() == Updated(order, capacity, old(View()), Node(price, quantity))
      ensures !Hits(old(View()), price) ==>
                Applied(order, capacity, Levels(old(View())), Levels(View()), Node(price, quantity))
      ensures !View().Broken? ==> Valid()
    {
      ShownFits(order, data[..size], data[0]);
      hide Pushed, Erased, MapOf, Applied;
      if !Hits(View(), price) {
        UpdateApplies(order, capacity, View(), Node(price, quantity));
      }
      if quantity == 0.0 {
        var _ := Erase(price);
        return;
      }
      var slot := Push(price, quantity);
      if slot.At? {
        var i := slot.index;
        ghost var s, first := data[..size], data[0];
        if i < size {
          WriteOfValue(order, s, first, i, quantity, if i == 0 then Node(price, quantity) else first);
        }
        data[i] := Node(data[i].key, quantity);
        assert i < size ==> data[..size] == s[i := Node(price, quantity)];
        assert i >= size ==> data[..size] == s;
      }
    }
  }

  /** `best` is the best entry of `m`, or none exactly if there is none. */
  ghost predicate IsBestOf(order: SortOrder, m: map<real, real>, best: Option<Node>) {
    && (best.None? <==> m == map[])
    && (best.Some? ==>
          && best.value.key in m && m[best.value.key] == best.value.value
          && forall k :: k in m && k != best.value.key ==> Before(order, best.value.key, k))
  }

  /** The same in numbers: no stored price is higher, or lower. */
  ghost predicate IsHighest(m: map<real, real>, best: Option<Node>) {
    && (best.None? <==> m == map[])
    && (best.Some? ==>
          best.value.key in m && m[best.value.key] == best.value.value && forall k :: k in m ==> k <= best.value.key)
  }

  ghost predicate IsLowest(m: map<real, real>, best: Option<Node>) {
    && (best.None? <==> m == map[])
    && (best.Some? ==>
          best.value.key in m && m[best.value.key] == best.value.value && forall k :: k in m ==> k >= best.value.key)
  }

  datatype Side = Buy | Sell

  datatype DepthUpdate = DepthUpdate(price: real, quantity: real, side: Side)

  /** The updates of one side, in order. */
  function OfSide(events: seq<DepthUpdate>, side: Side): (r: seq<Node>) {
    if events == [] then []
    else
      var last := events[|events| - 1];
      OfSide(events[..|events| - 1], side) + if last.side == side then [Node(last.price, last.quantity)] else []
  }

  const MAX_DEPTH: Word32 := 1000

  class MarketDepthBook {
    const asks: FlatMap
    const bids: FlatMap

    /** Two separate maps in their orderings; a side is sound unless its size has wrapped. */
    ghost predicate Valid()
      reads asks`size, asks.data, bids`size, bids.data
    {
      && asks != bids && asks.data != bids.data
      && asks.order == Ascending && bids.order == Descending
      && asks.capacity == asks.data.Length == MAX_DEPTH == bids.capacity == bids.data.Length
      && (bids.View().Broken? || bids.Valid())
      && (asks.View().Broken? || asks.Valid())
    }

    constructor ()
      ensures Valid() && asks.View() == Fresh && bids.View() == Fresh
      ensures fresh(asks) && fresh(bids) && fresh(asks.data) && fresh(bids.data)
    {
      asks := new FlatMap(Ascending, MAX_DEPTH);
      bids := new FlatMap(Descending, MAX_DEPTH);
    }

    method GetBestBid() returns (best: Option<Node>)
      requires Valid() && !bids.View().Broken?
      ensures IsHighest(Levels(bids.View()), best)
    {
      best := bids.GetBestPrice();
    }

    method GetBestAsk() returns (best: Option<Node>)
      requires Valid() && !asks.View().Broken?
      ensures IsLowest(Levels(asks.View()), best)
    {
      best := asks.GetBestPrice();
    }

    /** An update reaches its own side only, which must not have wrapped. */
    method HandleUpdate(u: DepthUpdate)
      requires Valid() && !(if u.side == Buy then bids.View() else asks.View()).Broken?
      modifies asks`size, asks.data, bids`size, bids.data
      ensures Valid()
      ensures bids.View() == if u.side == Sell then old(bids.View())
                             else Updated(Descending, MAX_DEPTH, old(bids.View()), Node(u.price, u.quantity))
      ensures asks.View() == if u.side == Buy then old(asks.View())
                             else Updated(Ascending, MAX_DEPTH, old(asks.View()), Node(u.price, u.quantity))
    {
      hide Updated;
      if u.side == Buy {
        bids.HandlePriceUpdate(u.price, u.quantity);
      } else {
        asks.HandlePriceUpdate(u.price, u.quantity);
      }
    }

    /** A stream of events folds each side's updates, whatever the book held before. */
    method HandleEvents(events: seq<DepthUpdate>)
      requires Valid()
      requires Defined(Descending, bids.View(), events, Buy) && Defined(Ascending, asks.View(), events, Sell)
      modifies asks`size, asks.data, bids`size, bids.data
      ensures Valid()
      ensures bids.View() == Fold(Descending, MAX_DEPTH, old(bids.View()), OfSide(events, Buy))
      ensures asks.View() == Fold(Ascending, MAX_DEPTH, old(asks.View()), OfSide(events, Sell))
    {
      hide Updated, Fold, OfSide, FlatMap.View;
      ghost var bid, ask := bids.View(), asks.View();
      FoldNone(Descending, bid, events, Buy);
      FoldNone(Ascending, ask, events, Sell);
      var i := 0;
      while i < |events|
        invariant i <= |events| && Valid()
        invariant bids.View() == Fold(Descending, MAX_DEPTH, bid, OfSide(events[..i], Buy))
        invariant asks.View() == Fold(Ascending, MAX_DEPTH, ask, OfSide(events[..i], Sell))
      {
        FoldOfNext(Descending, bid, events, i, Buy);
        FoldOfNext(Ascending, ask, events, i, Sell);
        HandleUpdate(events[i]);
        i := i + 1;
      }
      assert events[..i] == events;
    }
  }

  /** No update reaches a side whose size has wrapped; it would read outside the array. */
  ghost predicate Defined(order: SortOrder, d: Depth, events: seq<DepthUpdate>, side: Side) {
    forall i :: 0 <= i < |events| && events[i].side == side ==>
      !Fold(order, MAX_DEPTH, d, OfSide(events[..i], side)).Broken?
  }

  lemma {:induction false} UnbrokenIsDefined(order: SortOrder, d: Depth, events: seq<DepthUpdate>, side: Side)
    requires !Fold(order, MAX_DEPTH, d, OfSide(events, side)).Broken?
    ensures Defined(order, d, events, side)
  {
    hide Fold, OfSide;
    forall i | 0 <= i < |events| && events[i].side == side
      ensures !Fold(order, MAX_DEPTH, d, OfSide(events[..i], side)).Broken?
    {
      if Fold(order, MAX_DEPTH, d, OfSide(events[..i], side)).Broken? {
        BrokenForGood(order, d, events, i, side);
      }
    }
  }

  /** A new book after a stream of events: a side that never has more live prices than fit, and never
      gets the price that emptied it last while it is empty, has as its best price the extreme key of the
      unbounded map of its updates, with its latest quantity. The other side may do anything the code
      defines. */
  method BestAfter(events: seq<DepthUpdate>, side: Side) returns (best: Option<Node>)
    requires Clean(OfSide(events, side))
    requires Defined(OrderOf(Other(side)), Fresh, events, Other(side))
    ensures var m := Unbounded(OfSide(events, side)); if side == Buy then IsHighest(m, best) else IsLowest(m, best)
  {
    hide Fold, OfSide, Unbounded, IsHighest, IsLowest, Clean, Defined;
    var book := new MarketDepthBook();
    CleanShows(OrderOf(side), OfSide(events, side));
    UnbrokenIsDefined(OrderOf(side), Fresh, events, side);
    book.HandleEvents(events);
    if side == Buy {
      best := book.GetBestBid();
    } else {
      best := book.GetBestAsk();
    }
  }

  function Other(side: Side): Side {
    if side == Buy then Sell else Buy
  }

  function OrderOf(side: Side): SortOrder {
    if side == Buy then Descending else Ascending
  }

  /** Nothing is evicted and no update of the empty side has the price that emptied it last. */
  ghost predicate Clean(updates: seq<Node>) {
    Fits(MAX_DEPTH, updates) && forall i :: 0 <= i < |updates| ==> !MeetsLeftover(updates, i)
  }

  lemma {:induction false} CleanShows(order: SortOrder, updates: seq<Node>)
    ensures Clean(updates) ==> Shows(Fold(order, MAX_DEPTH, Fresh, updates), Unbounded(updates))
  {
    if Clean(updates) {
      ShowsExactlyUnlessMet(order, MAX_DEPTH, updates);
      assert ShowsAt(order, MAX_DEPTH, updates, |updates|);
      assert updates[..|updates|] == updates;
    }
  }

  lemma {:induction false} FoldNone(order: SortOrder, d: Depth, events: seq<DepthUpdate>, side: Side)
    ensures Fold(order, MAX_DEPTH, d, OfSide(events[..0], side)) == d
  {
  }

  lemma {:induction false} FoldSnoc(order: SortOrder, d: Depth, row: seq<Node>, u: Node)
    ensures Fold(order, MAX_DEPTH, d, row + [u]) == Updated(order, MAX_DEPTH, Fold(order, MAX_DEPTH, d, row), u)
  {
    hide Updated;
    assert (row + [u])[..|row|] == row;
  }

  lemma {:induction false} OfSideNext(events: seq<DepthUpdate>, i: nat, side: Side)
    requires i < |events|
    ensures var u := events[i];
      OfSide(events[..i + 1], side)
      == OfSide(events[..i], side) + if u.side == side then [Node(u.price, u.quantity)] else []
  {
    assert events[..i + 1][..i] == events[..i];
  }

  lemma {:induction false} FoldOfNext(order: SortOrder, d: Depth, events: seq<DepthUpdate>, i: nat, side: Side)
    requires i < |events|
    ensures var before, u := Fold(order, MAX_DEPTH, d, OfSide(events[..i], side)), events[i];
      Fold(order, MAX_DEPTH, d, OfSide(events[..i + 1], side))
      == if u.side == side then Updated(order, MAX_DEPTH, before, Node(u.price, u.quantity)) else before
  {
    hide Updated, Fold, OfSide;
    OfSideNext(events, i, side);
    var row := OfSide(events[..i], side);
    FoldSnoc(order, d, row, Node(events[i].price, events[i].quantity));
    assert row + [] == row;
  }

  /** A size that has wrapped stays wrapped. */
  lemma {:induction false} BrokenForGood(order: SortOrder, d: Depth, events: seq<DepthUpdate>, i: nat, side: Side)
    requires i <= |events| && Fold(order, MAX_DEPTH, d, OfSide(events[..i], side)).Broken?
    ensures Fold(order, MAX_DEPTH, d, OfSide(events, side)).Broken?
    decreases |events| - i
  {
    hide Fold, OfSide, Pushed, Erased;
    if i == |events| {
      assert events[..i] == events;
    } else {
      OfSideNext(events, i, side);
      var row := OfSide(events[..i], side);
      FoldSnoc(order, d, row, Node(events[i].price, events[i].quantity));
      assert row + [] == row;
      BrokenForGood(order, d, events, i + 1, side);
    }
  }
}
