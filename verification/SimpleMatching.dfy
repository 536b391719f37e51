/** The matching loop of the simple engine. Its side maps are kept in the opposite price order, so a
    lower-bound lookup starts at the worst price the taker accepts and walks towards the best. */
module SimpleMatching {
  import opened Words
  import opened Sequences
  import opened OrderBook
  import opened SweepShape
  import opened SweepEconomy

  /** The position of the first level, in the simple engine's map order, that is not before the
      limit price; all levels from there on cross. */
  function LowerBound(levels: seq<Level>, taker: Side, limit: nat): (n: nat)
    ensures n <= |levels|
    ensures forall i :: 0 <= i < n ==> !Crosses(taker, levels[i].price, limit)
    ensures n < |levels| ==> Crosses(taker, levels[n].price, limit)
  {
    if levels == [] || Crosses(taker, levels[0].price, limit) then 0
    else 1 + LowerBound(levels[1..], taker, limit)
  }

  /** Walk over levels without a price test; an emptied level stays in the map. */
  function Drain(levels: seq<Level>, qty: nat): (sw: Swept)
    ensures |sw.levels| == |levels|
  {
    if levels == [] || qty == 0 then
      Swept(levels, qty, [])
    else
      var m := MatchList(levels[0].orders, qty);
      var tail := Drain(levels[1..], m.qty);
      Swept([Level(levels[0].price, m.rest)] + tail.levels, tail.qty, m.fills + tail.fills)
  }

  /** The whole matching call: levels before the lower bound stay as they are. */
  function WorstFirst(levels: seq<Level>, taker: Side, limit: nat, qty: nat): Swept {
    var n := LowerBound(levels, taker, limit);
    var sw := Drain(levels[n..], qty);
    sw.(levels := levels[..n] + sw.levels)
  }

  /** The ids of the makers that `rest` no longer has. */
  function Gone(orders: seq<Resting>, rest: seq<Resting>): set<nat> {
    set j | 0 <= j < |orders| - |rest| :: orders[j].id
  }

  /** The ids of the makers that the levels have lost. */
  function GoneFrom(levels: seq<Level>, after: seq<Level>): set<nat>
    requires |after| == |levels|
  {
    set i, id | 0 <= i < |levels| && id in Gone(levels[i].orders, after[i].orders) :: id
  }

  lemma {:induction false} GoneFromNext(levels: seq<Level>, after: seq<Level>, i: nat, now: Level)
    requires |after| == |levels| && i < |levels| && after[i] == levels[i]
    ensures GoneFrom(levels, after[i := now]) == GoneFrom(levels, after) + Gone(levels[i].orders, now.orders)
  {
    hide Gone;
    assert Gone(levels[i].orders, levels[i].orders) == {} by { NoneGone(levels[i].orders); }
    var next := after[i := now];
    assert forall j :: 0 <= j < |levels| && j != i ==> next[j] == after[j];
    assert next[i] == now;
  }

  lemma {:induction false} NoneGone(orders: seq<Resting>)
    ensures Gone(orders, orders) == {}
  {
  }

  /** The trades of one list are with its makers, from the first on. */
  lemma {:induction false} ListTrades(taker: Resting, orders: seq<Resting>, qty: nat, log: seq<Trade>)
    ensures var fills := MatchList(orders, qty).fills;
      && |fills| <= |orders|
      && forall i :: 0 <= i < |fills| ==> Between((log + TradesOf(taker, fills))[|log| + i], taker, orders[i])
  {
    var fills := MatchList(orders, qty).fills;
    ListFills(orders, qty);
    hide MatchList;
    forall i | 0 <= i < |fills| ensures Between((log + TradesOf(taker, fills))[|log| + i], taker, orders[i]) {
      assert (log + TradesOf(taker, fills))[|log| + i] == TradeOf(taker, fills[i]);
    }
  }

  lemma {:induction false} ListFills(orders: seq<Resting>, qty: nat)
    ensures var fills := MatchList(orders, qty).fills;
      && |fills| <= |orders|
      && forall i :: 0 <= i < |fills| ==> fills[i].id == orders[i].id && fills[i].price == orders[i].price
  {
    if orders != [] && qty >= orders[0].qty {
      ListFills(orders[1..], qty - orders[0].qty);
    }
  }

  /** The list loop: trades are logged, whole makers leave the list and the index of ids. */
  method MatchOrderList(taker: Resting, orders: seq<Resting>, qty: nat, indexed: set<nat>, log: seq<Trade>)
    returns (rest: seq<Resting>, left: nat, index: set<nat>, trades: seq<Trade>, ghost fills: seq<Fill>)
    ensures Matched(rest, left, fills) == MatchList(orders, qty)
    ensures index == indexed - Gone(orders, rest)
    ensures trades == log + TradesOf(taker, fills)
    ensures |trades| == |log| + |fills| && |fills| <= |orders|
    ensures forall i :: 0 <= i < |fills| ==> Between(trades[|log| + i], taker, orders[i])
  {
    hide Between, MatchList, TradesOf, Gone;
    ListTrades(taker, orders, qty, log);
    rest, left, fills, index, trades := orders, qty, [], indexed, log;
    ListStarts(taker, orders, qty, log);
    while rest != []
      invariant MatchList(orders, qty) == var m := MatchList(rest, left); m.(fills := fills + m.fills)
      invariant |rest| <= |orders| && rest == orders[|orders| - |rest|..]
      invariant index == indexed - Gone(orders, rest)
      invariant trades == log + TradesOf(taker, fills)
      decreases |rest|
    {
      var maker := rest[0];
      var fill := FillOf(maker, Min(maker.qty, left));
      LogNext(taker, log, fills, fill);
      ListGoesOn(orders, rest, left, fills);
      fills := fills + [fill];
      trades := trades + [TradeOf(taker, fill)];
      if left >= maker.qty {
        left := left - maker.qty;
        index := index - {maker.id};
        rest := rest[1..];
      } else {
        rest := [maker.(qty := maker.qty - left)] + rest[1..];
        left := 0;
        return;
      }
    }
    assert fills + [] == fills;
    ListEnds(left);
  }

  lemma {:induction false} ListStarts(taker: Resting, orders: seq<Resting>, qty: nat, log: seq<Trade>)
    ensures var m := MatchList(orders, qty); m.(fills := [] + m.fills) == m
    ensures Gone(orders, orders) == {} && log + TradesOf(taker, []) == log
  {
    var m := MatchList(orders, qty);
    assert [] + m.fills == m.fills;
  }

  lemma {:induction false} ListEnds(left: nat)
    ensures MatchList([], left) == Matched([], left, [])
  {
  }

  /** One maker further: it is gone, or the loop ends with it. */
  lemma {:induction false} ListGoesOn(orders: seq<Resting>, rest: seq<Resting>, left: nat, fills: seq<Fill>)
    requires rest != [] && |rest| <= |orders| && rest == orders[|orders| - |rest|..]
    ensures var maker, m := rest[0], MatchList(rest, left);
      var fill := FillOf(maker, Min(maker.qty, left));
      if left >= maker.qty then
        var n := MatchList(rest[1..], left - maker.qty);
        && m.(fills := fills + m.fills) == n.(fills := fills + [fill] + n.fills)
        && Gone(orders, rest[1..]) == Gone(orders, rest) + {maker.id}
      else
        var less := [maker.(qty := maker.qty - left)] + rest[1..];
        && m.(fills := fills + m.fills) == Matched(less, 0, fills + [fill])
        && Gone(orders, less) == Gone(orders, rest)
  {
    var maker := rest[0];
    var fill := FillOf(maker, Min(maker.qty, left));
    assert maker == orders[|orders| - |rest|];
    if left >= maker.qty {
      var n := MatchList(rest[1..], left - maker.qty);
      assert fills + ([fill] + n.fills) == fills + [fill] + n.fills;
    }
  }

  lemma {:induction false} LogNext(taker: Resting, log: seq<Trade>, fills: seq<Fill>, fill: Fill)
    ensures log + TradesOf(taker, fills + [fill]) == log + TradesOf(taker, fills) + [TradeOf(taker, fill)]
  {
  }

  lemma {:induction false} LogMore(taker: Resting, log: seq<Trade>, fills: seq<Fill>, more: seq<Fill>)
    ensures log + TradesOf(taker, fills + more) == log + TradesOf(taker, fills) + TradesOf(taker, more)
  {
  }

  /** One more level drained: what is done grows by it, what is ahead shrinks by it. */
  lemma {:induction false} DrainOne(done: seq<Level>, ahead: seq<Level>, qty: nat, fills: seq<Fill>)
    requires ahead != [] && qty > 0
    ensures var m := MatchList(ahead[0].orders, qty);
            Resumed(done, ahead, qty, fills)
            == Resumed(done + [Level(ahead[0].price, m.rest)], ahead[1..], m.qty, fills + m.fills)
  {
    var m := MatchList(ahead[0].orders, qty);
    var tail := Drain(ahead[1..], m.qty);
    var first := [Level(ahead[0].price, m.rest)];
    assert done + (first + tail.levels) == done + first + tail.levels;
    assert fills + (m.fills + tail.fills) == fills + m.fills + tail.fills;
  }

  /** The outcome if a walk that has done `done` and `fills` goes on over `ahead`. */
  function Resumed(done: seq<Level>, ahead: seq<Level>, qty: nat, fills: seq<Fill>): Swept {
    var tail := Drain(ahead, qty);
    Swept(done + tail.levels, tail.qty, fills + tail.fills)
  }

  /** The level walk: from the lower bound on, without a price test; the index loses exactly the ids of
      the makers that are gone. */
  method MatchOrder(taker: Resting, levels: seq<Level>, indexed: set<nat>, log: seq<Trade>)
    returns (after: seq<Level>, left: nat, index: set<nat>, trades: seq<Trade>, ghost fills: seq<Fill>)
    ensures Swept(after, left, fills) == WorstFirst(levels, taker.side, taker.price, taker.qty)
    ensures |after| == |levels| && index == indexed - GoneFrom(levels, after)
    ensures trades == log + TradesOf(taker, fills)
  {
    hide Drain, MatchList, WorstFirst, LowerBound, Resumed, Gone, GoneFrom, TradesOf;
    var i := LowerBound(levels, taker.side, taker.price);
    after, left, fills, index, trades := levels, taker.qty, [], indexed, log;
    ghost var n, whole := i, WorstFirst(levels, taker.side, taker.price, taker.qty);
    WalkStarts(taker, levels, log);
    while i < |after| && left > 0
      invariant n <= i <= |after| == |levels|
      invariant after[i..] == levels[i..]
      invariant whole == Resumed(after[..i], levels[i..], left, fills)
      invariant index == indexed - GoneFrom(levels, after)
      invariant trades == log + TradesOf(taker, fills)
    {
      DrainOne(after[..i], levels[i..], left, fills);
      ghost var f;
      var rest, q;
      rest, q, index, trades, f := MatchOrderList(taker, after[i].orders, left, index, trades);
      LogMore(taker, log, fills, f);
      assert levels[i..][1..] == levels[i + 1..];
      ghost var done := after[..i];
      GoneFromNext(levels, after, i, Level(after[i].price, rest));
      after := after[i := Level(after[i].price, rest)];
      assert after[..i + 1] == done + [Level(levels[i].price, rest)];
      left, i, fills := q, i + 1, fills + f;
    }
    WalkEnds(after, i, left, fills);
  }

  lemma {:induction false} WalkStarts(taker: Resting, levels: seq<Level>, log: seq<Trade>)
    ensures var n := LowerBound(levels, taker.side, taker.price);
      WorstFirst(levels, taker.side, taker.price, taker.qty) == Resumed(levels[..n], levels[n..], taker.qty, [])
    ensures GoneFrom(levels, levels) == {} && log + TradesOf(taker, []) == log
  {
    var n := LowerBound(levels, taker.side, taker.price);
    assert [] + Drain(levels[n..], taker.qty).fills == Drain(levels[n..], taker.qty).fills;
  }

  lemma {:induction false} WalkEnds(after: seq<Level>, i: nat, left: nat, fills: seq<Fill>)
    requires i <= |after| && (i == |after| || left == 0)
    ensures Resumed(after[..i], after[i..], left, fills) == Swept(after, left, fills)
  {
    assert after == after[..i] + after[i..];
    assert fills + [] == fills;
  }

  // ---- Worst first against best first --------------------------------------------------------

  lemma {:induction false} DotSnoc(p: seq<int>, a: seq<nat>, x: int, n: nat)
    requires |p| == |a|
    ensures Dot(p + [x], a + [n]) == Dot(p, a) + Cost(x, n)
    ensures Sum(a + [n]) == Sum(a) + n
  {
    if p == [] {
      assert p + [x] == [x] && a + [n] == [n];
    } else {
      assert (p + [x])[1..] == p[1..] + [x] && (a + [n])[1..] == a[1..] + [n];
      DotSnoc(p[1..], a[1..], x, n);
    }
  }

  lemma {:induction false} DotReverse(p: seq<int>, a: seq<nat>)
    requires |p| == |a|
    ensures Dot(Reversed(p), Reversed(a)) == Dot(p, a)
    ensures Sum(Reversed(a)) == Sum(a)
  {
    if p != [] {
      assert Reversed(p) == Reversed(p[1..]) + [p[0]];
      assert Reversed(a) == Reversed(a[1..]) + [a[0]];
      DotReverse(p[1..], a[1..]);
      DotSnoc(Reversed(p[1..]), Reversed(a[1..]), p[0], a[0]);
    }
  }

  /** What a drain or a sweep with these outcomes executes, leaves and pays. */
  ghost predicate Executes(levels: seq<Level>, caps: seq<nat>, qty: nat, sw: Swept)
    requires |caps| == |levels|
  {
    && FillVolume(sw.fills) == Min(qty, Sum(caps)) == qty - sw.qty
    && Paid(sw.fills) == Dot(Prices(levels), Greedy(caps, qty))
  }

  lemma {:induction false} DrainTakes(levels: seq<Level>, side: Side, taker: Side, limit: nat, qty: nat)
    requires AllPlaced(levels, side)
    requires forall i :: 0 <= i < |levels| ==> Crosses(taker, levels[i].price, limit)
    ensures Executes(levels, Caps(levels, taker, limit), qty, Drain(levels, qty))
  {
    var caps := Caps(levels, taker, limit);
    if levels == [] {
    } else if qty == 0 {
      NothingTaken(Prices(levels), Greedy(caps, qty));
    } else {
      DrainTakes(levels[1..], side, taker, limit, MatchList(levels[0].orders, qty).qty);
      DrainTakesOn(levels, side, taker, limit, qty);
    }
  }

  lemma {:induction false} DrainUnfold(levels: seq<Level>, qty: nat)
    requires levels != [] && qty > 0
    ensures var m := MatchList(levels[0].orders, qty);
      var tail, whole := Drain(levels[1..], m.qty), Drain(levels, qty);
      && whole.qty == tail.qty
      && FillVolume(whole.fills) == FillVolume(m.fills) + FillVolume(tail.fills)
      && Paid(whole.fills) == Paid(m.fills) + Paid(tail.fills)
  {
    var m := MatchList(levels[0].orders, qty);
    var tail, whole := Drain(levels[1..], m.qty), Drain(levels, qty);
    assert whole.fills == m.fills + tail.fills && whole.qty == tail.qty;
    hide Drain, MatchList, FillVolume, Paid;
    FillVolumeConcat(m.fills, tail.fills);
    PaidConcat(m.fills, tail.fills);
  }

  lemma {:induction false} FirstOfLevels(levels: seq<Level>, side: Side, taker: Side, limit: nat)
    requires AllPlaced(levels, side) && levels != [] && Crosses(taker, levels[0].price, limit)
    ensures Caps(levels, taker, limit)[0] == Volume(levels[0].orders)
    ensures forall j :: 0 <= j < |levels[0].orders| ==> levels[0].orders[j].price == levels[0].price
  {
    assert Placed(levels[0], side);
  }

  lemma {:induction false} DrainTakesOn(levels: seq<Level>, side: Side, taker: Side, limit: nat, qty: nat)
    requires AllPlaced(levels, side) && levels != [] && qty > 0
    requires Crosses(taker, levels[0].price, limit)
    requires var m := MatchList(levels[0].orders, qty);
             Executes(levels[1..], Caps(levels[1..], taker, limit), m.qty, Drain(levels[1..], m.qty))
    ensures Executes(levels, Caps(levels, taker, limit), qty, Drain(levels, qty))
  {
    hide Cost, MatchList, Volume, FillVolume, Paid, Dot, Greedy, Sum, Drain, Caps, Prices, AllPlaced, Crosses;
    var caps := Caps(levels, taker, limit);
    TailsOfLevels(levels, taker, limit);
    FirstOfLevels(levels, side, taker, limit);
    DrainUnfold(levels, qty);
    MatchListTakes(levels[0].orders, levels[0].price, qty);
    Unfold(Prices(levels), caps, qty, caps);
  }

  /** Once a level crosses, all later ones do. */
  ghost predicate CrossingEnd(levels: seq<Level>, taker: Side, limit: nat) {
    forall i, j :: 0 <= i < j < |levels| ==>
      (Crosses(taker, levels[i].price, limit) ==> Crosses(taker, levels[j].price, limit))
  }

  /** Levels before the lower bound neither give nor cost anything. */
  lemma {:induction false} WorstFirstTakes(levels: seq<Level>, side: Side, taker: Side, limit: nat, qty: nat)
    requires AllPlaced(levels, side) && CrossingEnd(levels, taker, limit)
    ensures Executes(levels, Caps(levels, taker, limit), qty, WorstFirst(levels, taker, limit, qty))
  {
    if levels == [] || Crosses(taker, levels[0].price, limit) {
      assert levels[0..] == levels;
      DrainTakes(levels, side, taker, limit, qty);
    } else {
      WorstFirstTakes(levels[1..], side, taker, limit, qty);
      SkipOne(levels, taker, limit, qty);
    }
  }

  lemma {:induction false} SkipOne(levels: seq<Level>, taker: Side, limit: nat, qty: nat)
    requires levels != [] && !Crosses(taker, levels[0].price, limit)
    requires Executes(levels[1..], Caps(levels[1..], taker, limit), qty, WorstFirst(levels[1..], taker, limit, qty))
    ensures Executes(levels, Caps(levels, taker, limit), qty, WorstFirst(levels, taker, limit, qty))
  {
    hide Greedy, Dot, Sum, Paid, FillVolume, Drain, Cost, Volume;
    var n := LowerBound(levels[1..], taker, limit);
    assert levels[n + 1..] == levels[1..][n..];
    var caps := Caps(levels, taker, limit);
    TailsOfLevels(levels, taker, limit);
    Unfold(Prices(levels), caps, qty, caps);
    CostSum(levels[0].price, 0, 0);
  }

  /** Over levels that all cross, the walk does what the other engine's sweep does, but keeps empty levels. */
  lemma {:induction false} DrainIsSweep(levels: seq<Level>, taker: Side, limit: nat, qty: nat)
    requires forall i :: 0 <= i < |levels| ==> Crosses(taker, levels[i].price, limit)
    ensures var drained, swept := Drain(levels, qty), Sweep(levels, taker, limit, qty);
      && drained.qty == swept.qty && drained.fills == swept.fills
      && Flatten(drained.levels) == Flatten(swept.levels)
      && (forall i :: 0 <= i < |levels| ==> drained.levels[i].price == levels[i].price)
    ensures CrossingCount(levels, taker, limit) == |Flatten(levels)|
  {
    hide Crosses, MatchList;
    if levels != [] {
      var m := MatchList(levels[0].orders, qty);
      DrainIsSweep(levels[1..], taker, limit, if qty == 0 then 0 else m.qty);
    }
  }

  /** From the lower bound on, the simple engine serves the makers in its own map order, first come first
      in a price; the levels before it stay as they are. */
  lemma {:induction false} WorstFirstIsServed(levels: seq<Level>, taker: Side, limit: nat, qty: nat)
    returns (k: nat, touched: bool)
    requires CrossingEnd(levels, taker, limit)
    ensures var n, worst := LowerBound(levels, taker, limit), WorstFirst(levels, taker, limit, qty);
      var q := Flatten(levels[n..]);
      && |worst.levels| == |levels| && worst.levels[..n] == levels[..n]
      && (forall i :: 0 <= i < |levels| ==> worst.levels[i].price == levels[i].price)
      && Served(q, |q|, qty, k, touched) == Some(Matched(Flatten(worst.levels[n..]), worst.qty, worst.fills))
  {
    var n := LowerBound(levels, taker, limit);
    var behind, worst := levels[n..], WorstFirst(levels, taker, limit, qty);
    assert worst == Drain(behind, qty).(levels := levels[..n] + Drain(behind, qty).levels);
    assert forall i :: 0 <= i < |behind| ==> Crosses(taker, behind[i].price, limit);
    hide Drain, Sweep, Crosses, WorstFirst, LowerBound, CrossingCount, Flatten;
    DrainIsSweep(behind, taker, limit, qty);
    k, touched := SweepIsServed(behind, taker, limit, qty);
    assert worst.levels[n..] == Drain(behind, qty).levels;
  }

  lemma {:induction false} ReversedSide(levels: seq<Level>, taker: Side, limit: nat)
    requires Sorted(levels, taker.Opposite()) && AllPlaced(levels, taker.Opposite())
    ensures var back := Reversed(levels);
            && AllPlaced(back, taker.Opposite()) && CrossingEnd(back, taker, limit)
            && Caps(back, taker, limit) == Reversed(Caps(levels, taker, limit))
            && Prices(back) == Reversed(Prices(levels))
  {
    var back, n := Reversed(levels), |levels|;
    forall i, j | 0 <= i < j < n
      ensures Crosses(taker, back[i].price, limit) ==> Crosses(taker, back[j].price, limit)
    {
      assert Better(taker.Opposite(), levels[n - 1 - j].price, levels[n - 1 - i].price);
    }
  }

  /** On the same levels the two sweeps execute the same total, the smaller of the order quantity
      and the crossing liquidity, and leave the same residual; the one that starts at the worst
      crossing price never gives the taker a better total price. */
  lemma {:induction false} BestFirstBeatsWorstFirst(levels: seq<Level>, taker: Side, limit: nat, qty: nat)
    requires Sorted(levels, taker.Opposite()) && AllPlaced(levels, taker.Opposite())
    ensures var best := Sweep(levels, taker, limit, qty);
            var worst := WorstFirst(Reversed(levels), taker, limit, qty);
            && FillVolume(best.fills) == FillVolume(worst.fills) == Min(qty, Sum(Caps(levels, taker, limit)))
            && best.qty == worst.qty
            && NoWorse(taker, Paid(best.fills), Paid(worst.fills))
  {
    hide Greedy, Dot, Sum, Paid, FillVolume, Drain, Cost, Volume, Sweep, WorstFirst, Caps, Prices, Flatten;
    var back, caps, prices := Reversed(levels), Caps(levels, taker, limit), Prices(levels);
    ReversedSide(levels, taker, limit);
    SweepTakes(levels, taker, limit, qty);
    WorstFirstTakes(back, taker.Opposite(), taker, limit, qty);
    var backAlloc := Greedy(Reversed(caps), qty);
    var alloc := Reversed(backAlloc);
    DotReverse(prices, caps);
    DotReverse(Prices(back), backAlloc);
    assert Reversed(Reversed(prices)) == prices;
    GreedyIsNoWorse(levels, taker, limit, qty, alloc);
  }
}
