/** Orders as values, their volumes, and the ranking of price levels by depth. */
module PriceItems {

  import opened Words
  import opened Sequences

  datatype Side = Buy | Sell

  /** An order as a value. */
  datatype Item = Item(id: Word64, price: Word64, side: Side, volume: Word64)

  function Total(items: seq<Item>): nat {
    if items == [] then 0 else items[0].volume + Total(items[1..])
  }

  function TotalOf(items: seq<Item>, side: Side): nat {
    if items == [] then 0
    else (if items[0].side == side then items[0].volume else 0) + TotalOf(items[1..], side)
  }

  function Drop<T>(items: seq<T>, k: nat): (rest: seq<T>)
    requires k < |items|
    ensures |rest| == |items| - 1
    ensures forall i :: 0 <= i < |rest| ==> rest[i] == items[if i < k then i else i + 1]
  {
    items[..k] + items[k + 1..]
  }

  predicate Has(items: seq<Item>, side: Side) {
    exists i :: 0 <= i < |items| && items[i].side == side
  }

  lemma {:induction false} TotalConcat(a: seq<Item>, b: seq<Item>)
    ensures Total(a + b) == Total(a) + Total(b)
  {
    if a == [] {
      assert a + b == b;
    } else {
      assert (a + b)[1..] == a[1..] + b;
      TotalConcat(a[1..], b);
    }
  }

  lemma {:induction false} TotalOfSnoc(items: seq<Item>, last: Item, side: Side)
    ensures TotalOf(items + [last], side) == TotalOf(items, side) + if last.side == side then last.volume else 0
  {
    if items == [] {
      assert items + [last] == [last];
    } else {
      assert (items + [last])[1..] == items[1..] + [last];
      TotalOfSnoc(items[1..], last, side);
    }
  }

  lemma {:induction false} WrapSmall(n: Word64)
    ensures Wrap(n) == n
  {
  }

  lemma {:induction false} WrapBack(n: Word64)
    requires n > 0
    ensures Wrap(n + WORD64 - 1) == n - 1
  {
  }

  lemma {:induction false} WrapMinus(n: nat, v: Word64)
    requires v <= n
    ensures Wrap(Wrap(n) + WORD64 - v) == Wrap(n - v)
  {
  }

  /** Adding to the cached total, which wraps at 64 bits. */
  lemma {:induction false} CachedPlus(items: seq<Item>, last: Item)
    ensures Wrap(Total(items + [last])) == Wrap(Wrap(Total(items)) + last.volume)
  {
    TotalConcat(items, [last]);
    assert Total([last]) == last.volume;
    WrapPlus(Total(items), last.volume);
  }

  /** Taking one order off the cached total. */
  lemma {:induction false} CachedMinus(items: seq<Item>, k: nat)
    requires k < |items|
    ensures Wrap(Total(Drop(items, k))) == Wrap(Wrap(Total(items)) + WORD64 - items[k].volume)
  {
    hide Wrap;
    TotalWithout(items, k);
    WrapMinus(Total(items), items[k].volume);
  }

  lemma {:induction false} TotalWithout(items: seq<Item>, k: nat)
    requires k < |items|
    ensures Total(items) == Total(Drop(items, k)) + items[k].volume
  {
    TotalConcat(items[..k], items[k + 1..]);
    TotalConcat(items[..k], items[k..]);
    assert items == items[..k] + items[k..];
    assert items[k..][1..] == items[k + 1..];
  }

  lemma {:induction false} VolumeOfNone(items: seq<Item>, side: Side)
    ensures Wrap(TotalOf(items[..0], side)) == 0
  {
  }

  /** What the next order adds to a side's volume. */
  lemma {:induction false} VolumeOfNext(items: seq<Item>, i: nat, side: Side)
    requires i < |items|
    ensures Wrap(TotalOf(items[..i + 1], side))
         == if items[i].side == side then Wrap(Wrap(TotalOf(items[..i], side)) + items[i].volume)
            else Wrap(TotalOf(items[..i], side))
  {
    assert items[..i + 1] == items[..i] + [items[i]];
    TotalOfSnoc(items[..i], items[i], side);
    WrapPlus(TotalOf(items[..i], side), items[i].volume);
  }

  /** Replacing one order's volume on the cached total, in the two steps that do it. */
  lemma {:induction false} CachedChange(items: seq<Item>, k: nat, volume: Word64)
    requires k < |items|
    ensures Wrap(Total(items[k := items[k].(volume := volume)]))
         == Wrap(Wrap(Wrap(Total(items)) + WORD64 - items[k].volume) + volume)
  {
    hide Wrap;
    var changed := items[k := items[k].(volume := volume)];
    TotalWithout(items, k);
    TotalWithout(changed, k);
    assert Drop(changed, k) == Drop(items, k);
    WrapMinus(Total(items), items[k].volume);
    WrapPlus(Total(Drop(items, k)), volume);
  }

  // ----- Depth -----

  /** The positions of the queues that hold an order of `side`, in rank order. */
  function Ranks(queues: seq<seq<Item>>, side: Side): (r: seq<nat>)
    ensures forall d :: 0 <= d < |r| ==> r[d] < |queues|
  {
    if queues == [] then []
    else
      var n := |queues| - 1;
      Ranks(queues[..n], side) + if Has(queues[n], side) then [n] else []
  }

  /** Depth lists exactly the queues with an order of the side, each once, in rank order. */
  lemma {:induction false} RanksInOrder(queues: seq<seq<Item>>, side: Side)
    ensures var r := Ranks(queues, side);
      && (forall d, e :: 0 <= d < e < |r| ==> r[d] < r[e])
      && (forall i :: 0 <= i < |queues| ==> (i in r <==> Has(queues[i], side)))
  {
    if queues != [] {
      var n := |queues| - 1;
      RanksInOrder(queues[..n], side);
      forall i | 0 <= i < |queues| ensures i in Ranks(queues, side) <==> Has(queues[i], side) {
        if i < n {
          assert queues[..n][i] == queues[i];
        }
      }
    }
  }

  lemma {:induction false} RanksOfNext(queues: seq<seq<Item>>, i: nat, side: Side)
    requires i < |queues|
    ensures Ranks(queues[..i + 1], side) == Ranks(queues[..i], side) + if Has(queues[i], side) then [i] else []
  {
    assert queues[..i + 1][..i] == queues[..i];
  }

  lemma {:induction false} RanksOfNone(queues: seq<seq<Item>>, side: Side)
    ensures Ranks(queues[..0], side) == []
  {
  }

  /** What a scan has found so far stays at its depth. */
  lemma {:induction false} RanksPrefix(queues: seq<seq<Item>>, i: nat, side: Side)
    requires i <= |queues|
    ensures Ranks(queues[..i], side) <= Ranks(queues, side)
    decreases |queues| - i
  {
    if i < |queues| {
      RanksOfNext(queues, i, side);
      RanksPrefix(queues, i + 1, side);
    } else {
      assert queues[..i] == queues;
    }
  }

  /** Bid prices by depth of a ladder whose first level has price `low`. */
  function BidPrices(book: seq<seq<Item>>, low: nat): (prices: seq<nat>)
  {
    var r := Ranks(Reversed(book), Buy);
    seq(|r|, d requires 0 <= d < |r| => low + |book| - 1 - r[d])
  }

  /** Ask prices by depth. */
  function AskPrices(book: seq<seq<Item>>, low: nat): (prices: seq<nat>)
  {
    var r := Ranks(book, Sell);
    seq(|r|, d requires 0 <= d < |r| => low + r[d])
  }

  lemma {:induction false} HasIsMember(items: seq<Item>, side: Side)
    ensures Has(items, side) <==> exists o :: o in items && o.side == side
  {
    if Has(items, side) {
      var i :| 0 <= i < |items| && items[i].side == side;
      assert items[i] in items;
    }
    if o :| o in items && o.side == side {
      var i :| 0 <= i < |items| && items[i] == o;
      assert items[i].side == side;
    }
  }

  /** Depth lists the queues that hold an order of the side. */
  lemma {:induction false} RanksHold(queues: seq<seq<Item>>, side: Side)
    ensures forall i, o :: 0 <= i < |queues| && o in queues[i] && o.side == side ==> i in Ranks(queues, side)
    ensures forall i :: i in Ranks(queues, side) ==> exists o :: o in queues[i] && o.side == side
  {
    var r := Ranks(queues, side);
    RanksInOrder(queues, side);
    assert forall i :: i in r ==> i < |queues|;
    hide Ranks, Has;
    forall i, o | 0 <= i < |queues| && o in queues[i] && o.side == side ensures i in r {
      HasIsMember(queues[i], side);
    }
    forall i | i in r ensures exists o :: o in queues[i] && o.side == side {
      HasIsMember(queues[i], side);
    }
  }

  /** A depth's price tells the rank of its queue: counted down for bids, up for asks. */
  lemma {:induction false} BidRanked(book: seq<seq<Item>>, low: nat, i: nat)
    requires i < |book|
    ensures low + i in BidPrices(book, low) <==> |book| - 1 - i in Ranks(Reversed(book), Buy)
  {
    hide Ranks;
    var prices, r := BidPrices(book, low), Ranks(Reversed(book), Buy);
    if |book| - 1 - i in r {
      var d :| 0 <= d < |r| && r[d] == |book| - 1 - i;
      assert prices[d] == low + i;
    }
    if low + i in prices {
      var d :| 0 <= d < |prices| && prices[d] == low + i;
      assert r[d] == |book| - 1 - i;
    }
  }

  lemma {:induction false} AskRanked(book: seq<seq<Item>>, low: nat, i: nat)
    requires i < |book|
    ensures low + i in AskPrices(book, low) <==> i in Ranks(book, Sell)
  {
    hide Ranks;
    var prices, r := AskPrices(book, low), Ranks(book, Sell);
    if i in r {
      var d :| 0 <= d < |r| && r[d] == i;
      assert prices[d] == low + i;
    }
    if low + i in prices {
      var d :| 0 <= d < |prices| && prices[d] == low + i;
      assert r[d] == i;
    }
  }

  lemma {:induction false} BidsInRange(book: seq<seq<Item>>, low: nat)
    ensures var prices := BidPrices(book, low);
      && (forall p :: p in prices ==> low <= p < low + |book|)
      && (forall d, e :: 0 <= d < e < |prices| ==> prices[d] > prices[e])
  {
    var prices, r := BidPrices(book, low), Ranks(Reversed(book), Buy);
    RanksInOrder(Reversed(book), Buy);
    forall d, e | 0 <= d < e < |prices| ensures prices[d] > prices[e] {
      assert r[d] < r[e];
    }
  }

  lemma {:induction false} AsksInRange(book: seq<seq<Item>>, low: nat)
    ensures var prices := AskPrices(book, low);
      && (forall p :: p in prices ==> low <= p < low + |book|)
      && (forall d, e :: 0 <= d < e < |prices| ==> prices[d] < prices[e])
  {
    var prices, r := AskPrices(book, low), Ranks(book, Sell);
    RanksInOrder(book, Sell);
    forall d, e | 0 <= d < e < |prices| ensures prices[d] < prices[e] {
      assert r[d] < r[e];
    }
  }

  /** Bids by depth are exactly the prices with a buy order, strictly falling. */
  lemma {:induction false} BidsFall(book: seq<seq<Item>>, low: nat)
    ensures var prices := BidPrices(book, low);
      && (forall d, e :: 0 <= d < e < |prices| ==> prices[d] > prices[e])
      && (forall i, o :: 0 <= i < |book| && o in book[i] && o.side == Buy ==> low + i in prices)
      && (forall p :: p in prices ==> low <= p < low + |book| && exists o :: o in book[p - low] && o.side == Buy)
  {
    hide Ranks, Has, BidPrices;
    var prices, flipped := BidPrices(book, low), Reversed(book);
    BidsInRange(book, low);
    RanksHold(flipped, Buy);
    forall i, o | 0 <= i < |book| && o in book[i] && o.side == Buy ensures low + i in prices {
      BidRanked(book, low, i);
      assert flipped[|book| - 1 - i] == book[i];
    }
    forall p | p in prices ensures low <= p < low + |book| && exists o :: o in book[p - low] && o.side == Buy {
      BidRanked(book, low, p - low);
      assert flipped[|book| - 1 - (p - low)] == book[p - low];
    }
  }

  /** Asks by depth are exactly the prices with a sell order, strictly rising. */
  lemma {:induction false} AsksRise(book: seq<seq<Item>>, low: nat)
    ensures var prices := AskPrices(book, low);
      && (forall d, e :: 0 <= d < e < |prices| ==> prices[d] < prices[e])
      && (forall i, o :: 0 <= i < |book| && o in book[i] && o.side == Sell ==> low + i in prices)
      && (forall p :: p in prices ==> low <= p < low + |book| && exists o :: o in book[p - low] && o.side == Sell)
  {
    hide Ranks, Has, AskPrices;
    var prices := AskPrices(book, low);
    AsksInRange(book, low);
    RanksHold(book, Sell);
    forall i, o | 0 <= i < |book| && o in book[i] && o.side == Sell ensures low + i in prices {
      AskRanked(book, low, i);
    }
    forall p | p in prices ensures low <= p < low + |book| && exists o :: o in book[p - low] && o.side == Sell {
      AskRanked(book, low, p - low);
    }
  }

  // ----- Volume over all depths -----

  /** The wrapped volumes of a side, one per depth. */
  function DepthVolumes(queues: seq<seq<Item>>, side: Side): (volumes: seq<nat>)
    ensures |volumes| == |Ranks(queues, side)|
  {
    var r := Ranks(queues, side);
    seq(|r|, d requires 0 <= d < |r| => Wrap(TotalOf(queues[r[d]], side)))
  }

  function BidVolumes(book: seq<seq<Item>>): seq<nat> {
    DepthVolumes(Reversed(book), Buy)
  }

  function AskVolumes(book: seq<seq<Item>>): seq<nat> {
    DepthVolumes(book, Sell)
  }

  /** Price and volume at one depth are those of one level. */
  lemma {:induction false} BidVolumeAtPrice(book: seq<seq<Item>>, low: nat, depth: nat)
    ensures var prices, volumes := BidPrices(book, low), BidVolumes(book);
      && |volumes| == |prices| == |Ranks(Reversed(book), Buy)|
      && (depth < |prices| ==> prices[depth] == low + |book| - 1 - Ranks(Reversed(book), Buy)[depth])
      && (depth < |prices| ==>
            && low <= prices[depth] < low + |book|
            && volumes[depth] == Wrap(TotalOf(book[prices[depth] - low], Buy)))
  {
    hide Ranks, Wrap, TotalOf;
    var r := Ranks(Reversed(book), Buy);
    if depth < |r| {
      assert Reversed(book)[r[depth]] == book[|book| - 1 - r[depth]];
    }
  }

  lemma {:induction false} AskVolumeAtPrice(book: seq<seq<Item>>, low: nat, depth: nat)
    ensures var prices, volumes := AskPrices(book, low), AskVolumes(book);
      && |volumes| == |prices| == |Ranks(book, Sell)|
      && (depth < |prices| ==> prices[depth] == low + Ranks(book, Sell)[depth])
      && (depth < |prices| ==>
            && low <= prices[depth] < low + |book|
            && volumes[depth] == Wrap(TotalOf(book[prices[depth] - low], Sell)))
  {
    hide Ranks, Wrap, TotalOf;
  }

  /** The cached totals of the levels. */
  function LevelTotals(book: seq<seq<Item>>): (totals: seq<nat>) {
    seq(|book|, i requires 0 <= i < |book| => Wrap(Total(book[i])))
  }

  /** The true volume of a side, over all queues. */
  function SideTotal(queues: seq<seq<Item>>, side: Side): nat {
    if queues == [] then 0
    else SideTotal(queues[..|queues| - 1], side) + TotalOf(queues[|queues| - 1], side)
  }

  function BookTotal(queues: seq<seq<Item>>): nat {
    if queues == [] then 0
    else BookTotal(queues[..|queues| - 1]) + Total(queues[|queues| - 1])
  }

  lemma {:induction false} NoneOfSide(items: seq<Item>, side: Side)
    requires !Has(items, side)
    ensures TotalOf(items, side) == 0
  {
    if items != [] {
      assert items[0].side != side;
      assert forall i :: 0 <= i < |items[1..]| ==> items[1..][i] == items[i + 1];
      NoneOfSide(items[1..], side);
    }
  }

  lemma {:induction false} BothSides(items: seq<Item>)
    ensures TotalOf(items, Buy) + TotalOf(items, Sell) == Total(items)
  {
    if items != [] {
      BothSides(items[1..]);
    }
  }

  lemma {:induction false} WrapAdds(m: nat, n: nat)
    ensures Wrap(m + n) == Wrap(Wrap(m) + Wrap(n))
  {
    WrapPlus(m, n);
    WrapPlus(n, Wrap(m));
  }

  lemma {:induction false} DepthVolumesNext(queues: seq<seq<Item>>, side: Side)
    requires queues != []
    ensures var front, last := queues[..|queues| - 1], queues[|queues| - 1];
      DepthVolumes(queues, side)
      == DepthVolumes(front, side) + if Has(last, side) then [Wrap(TotalOf(last, side))] else []
  {
    hide Wrap, TotalOf, Has;
    var n := |queues| - 1;
    assert Ranks(queues, side) == Ranks(queues[..n], side) + if Has(queues[n], side) then [n] else [];
    hide Ranks;
  }

  lemma {:induction false} DepthVolumesAddUp(queues: seq<seq<Item>>, side: Side)
    ensures Wrap(Sum(DepthVolumes(queues, side))) == Wrap(SideTotal(queues, side))
  {
    if queues != [] {
      var n := |queues| - 1;
      var front, last := queues[..n], queues[n];
      DepthVolumesAddUp(front, side);
      DepthVolumesNext(queues, side);
      assert SideTotal(queues, side) == SideTotal(front, side) + TotalOf(last, side);
      hide Wrap, TotalOf, Has, Sum, DepthVolumes, SideTotal;
      var before := DepthVolumes(front, side);
      if Has(last, side) {
        SumNext(before, Wrap(TotalOf(last, side)));
        SumsWrap(Sum(before), SideTotal(front, side), TotalOf(last, side));
      } else {
        NoneOfSide(last, side);
        assert before + [] == before;
      }
    }
  }

  lemma {:induction false} SumsWrap(m: nat, n: nat, v: nat)
    requires Wrap(m) == Wrap(n)
    ensures Wrap(m + Wrap(v)) == Wrap(n + v)
  {
    WrapAdds(m, Wrap(v));
    WrapAdds(n, v);
  }

  lemma {:induction false} LevelTotalsAddUp(book: seq<seq<Item>>)
    ensures Wrap(Sum(LevelTotals(book))) == Wrap(BookTotal(book))
  {
    hide Wrap;
    if book != [] {
      var n := |book| - 1;
      LevelTotalsAddUp(book[..n]);
      assert LevelTotals(book) == LevelTotals(book[..n]) + [Wrap(Total(book[n]))];
      SumNext(LevelTotals(book[..n]), Wrap(Total(book[n])));
      SumsWrap(Sum(LevelTotals(book[..n])), BookTotal(book[..n]), Total(book[n]));
    }
  }

  lemma {:induction false} SidesMakeBook(book: seq<seq<Item>>)
    ensures SideTotal(book, Buy) + SideTotal(book, Sell) == BookTotal(book)
  {
    if book != [] {
      SidesMakeBook(book[..|book| - 1]);
      BothSides(book[|book| - 1]);
    }
  }

  lemma {:induction false} SideTotalFront(queues: seq<seq<Item>>, side: Side)
    requires queues != []
    ensures SideTotal(queues, side) == TotalOf(queues[0], side) + SideTotal(queues[1..], side)
  {
    var n := |queues| - 1;
    if n > 0 {
      SideTotalFront(queues[..n], side);
      assert queues[..n][1..] == queues[1..][..n - 1];
    }
  }

  lemma {:induction false} SideTotalReversed(queues: seq<seq<Item>>, side: Side)
    ensures SideTotal(Reversed(queues), side) == SideTotal(queues, side)
  {
    if queues != [] {
      var n := |queues| - 1;
      var flipped := Reversed(queues);
      SideTotalReversed(queues[..n], side);
      assert flipped[1..] == Reversed(queues[..n]);
      SideTotalFront(flipped, side);
    }
  }

  /** Bid and ask volumes over all depths add up to the cached totals of the levels. */
  lemma {:induction false} DepthsMakeTotals(book: seq<seq<Item>>)
    ensures Wrap(Sum(BidVolumes(book)) + Sum(AskVolumes(book))) == Wrap(Sum(LevelTotals(book)))
    ensures Wrap(Sum(LevelTotals(book))) == Wrap(BookTotal(book))
  {
    hide Wrap, Sum, DepthVolumes, SideTotal, BookTotal, LevelTotals, Reversed;
    var bids, asks := BidVolumes(book), AskVolumes(book);
    DepthVolumesAddUp(Reversed(book), Buy);
    SideTotalReversed(book, Buy);
    DepthVolumesAddUp(book, Sell);
    WrapAdds(Sum(bids), Sum(asks));
    WrapAdds(SideTotal(book, Buy), SideTotal(book, Sell));
    SidesMakeBook(book);
    LevelTotalsAddUp(book);
  }

  // ----- The index -----

  /** The volume of all orders an index holds. */
  ghost function IndexTotal(index: map<Word64, Item>): nat
    decreases |index|
  {
    if index == map[] then 0
    else var id :| id in index; index[id].volume + IndexTotal(index - {id})
  }

  lemma {:induction false} IndexTotalWithout(index: map<Word64, Item>, id: Word64)
    requires id in index
    ensures IndexTotal(index) == index[id].volume + IndexTotal(index - {id})
    decreases |index|
  {
    var pick :| pick in index && IndexTotal(index) == index[pick].volume + IndexTotal(index - {pick});
    if pick != id {
      IndexTotalWithout(index - {pick}, id);
      IndexTotalWithout(index - {id}, pick);
      assert index - {pick} - {id} == index - {id} - {pick};
    }
  }

  function Flat(book: seq<seq<Item>>): seq<Item> {
    if book == [] then [] else Flat(book[..|book| - 1]) + book[|book| - 1]
  }

  lemma {:induction false} FlatTotal(book: seq<seq<Item>>)
    ensures Total(Flat(book)) == BookTotal(book)
  {
    if book != [] {
      FlatTotal(book[..|book| - 1]);
      TotalConcat(Flat(book[..|book| - 1]), book[|book| - 1]);
    }
  }

  /** `index` sends each id to the one order in `items` that has it. */
  ghost predicate Indexes(index: map<Word64, Item>, items: seq<Item>) {
    && (forall i, j :: 0 <= i < j < |items| ==> items[i].id != items[j].id)
    && (forall i :: 0 <= i < |items| ==> items[i].id in index && index[items[i].id] == items[i])
    && (forall id :: id in index ==> exists i :: 0 <= i < |items| && items[i].id == id)
  }

  lemma {:induction false} IndexedVolume(index: map<Word64, Item>, items: seq<Item>)
    requires Indexes(index, items)
    ensures IndexTotal(index) == Total(items)
  {
    if items == [] {
      assert index == map[];
    } else {
      var id, rest := items[0].id, items[1..];
      IndexTotalWithout(index, id);
      assert Indexes(index - {id}, rest) by {
        assert forall i :: 0 <= i < |rest| ==> rest[i] == items[i + 1];
        forall other | other in index - {id} ensures exists i :: 0 <= i < |rest| && rest[i].id == other {
          var i :| 0 <= i < |items| && items[i].id == other;
          assert rest[i - 1].id == other;
        }
      }
      IndexedVolume(index - {id}, rest);
    }
  }
}
