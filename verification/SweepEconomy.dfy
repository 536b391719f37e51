/** Price optimality of the sweep: no other way to take the same quantity gives the taker a better
    total price. */
module SweepEconomy {
  import opened Words
  import opened Sequences
  import opened OrderBook
  import opened SweepShape

  function Cost(price: int, n: int): int {
    price * n
  }

  function Dot(p: seq<int>, a: seq<nat>): int
    requires |p| == |a|
  {
    if p == [] then 0 else Cost(p[0], a[0]) + Dot(p[1..], a[1..])
  }

  // ---- Taking from the front is cheapest ---------------------------------------------------

  /** Take as much as possible from the front. */
  function Greedy(caps: seq<nat>, qty: nat): (g: seq<nat>)
    ensures |g| == |caps|
    ensures Sum(g) == Min(qty, Sum(caps))
    ensures forall i :: 0 <= i < |g| ==> g[i] <= caps[i]
  {
    if caps == [] then [] else [Min(qty, caps[0])] + Greedy(caps[1..], qty - Min(qty, caps[0]))
  }

  ghost predicate Rising(p: seq<int>) {
    forall i, j :: 0 <= i <= j < |p| ==> p[i] <= p[j]
  }

  ghost predicate Within(alloc: seq<nat>, caps: seq<nat>) {
    |alloc| == |caps| && forall i :: 0 <= i < |alloc| ==> alloc[i] <= caps[i]
  }

  lemma {:induction false} Factor(p: int, low: int, n: nat)
    requires low <= p
    ensures low * n <= p * n
  {
    assert (p - low) * n >= 0;
  }

  /** Nothing is wanted any more, and nothing here costs less than `marginal`. */
  lemma {:induction false} DryTail(p: seq<int>, caps: seq<nat>, alloc: seq<nat>, marginal: int)
    requires |p| == |caps| == |alloc|
    requires forall i :: 0 <= i < |p| ==> marginal <= p[i]
    ensures Dot(p, alloc) - Dot(p, Greedy(caps, 0))
            >= Cost(marginal, Sum(alloc) - Sum(Greedy(caps, 0)))
  {
    if p != [] {
      DryTail(p[1..], caps[1..], alloc[1..], marginal);
      Factor(p[0], marginal, alloc[0]);
      assert marginal * Sum(alloc) == marginal * alloc[0] + marginal * Sum(alloc[1..]);
    }
  }

  /** The price of the last unit taken bounds the difference to any other allocation. */
  lemma {:induction false} MarginalPrice(p: seq<int>, caps: seq<nat>, qty: nat, alloc: seq<nat>, low: int)
    returns (marginal: int)
    requires |p| == |caps| && Within(alloc, caps) && Rising(p)
    requires p != [] ==> low <= p[0]
    ensures low <= marginal
    ensures Dot(p, alloc) - Dot(p, Greedy(caps, qty))
            >= Cost(marginal, Sum(alloc) - Sum(Greedy(caps, qty)))
  {
    if p == [] {
      marginal := low;
    } else {
      var taken := Min(qty, caps[0]);
      if qty < caps[0] {
        marginal := p[0];
        DryTail(p[1..], caps[1..], alloc[1..], marginal);
      } else {
        marginal := MarginalPrice(p[1..], caps[1..], qty - taken, alloc[1..], p[0]);
      }
      WithHead(marginal, p, caps, qty, alloc);
    }
  }

  lemma {:induction false} WithHead(marginal: int, p: seq<int>, caps: seq<nat>, qty: nat, alloc: seq<nat>)
    requires |p| == |caps| == |alloc| > 0
    requires p[0] == marginal || (p[0] <= marginal && alloc[0] <= caps[0] <= qty)
    requires var rest := Greedy(caps[1..], qty - Min(qty, caps[0]));
             Dot(p[1..], alloc[1..]) - Dot(p[1..], rest)
             >= Cost(marginal, Sum(alloc[1..]) - Sum(rest))
    ensures Dot(p, alloc) - Dot(p, Greedy(caps, qty))
            >= Cost(marginal, Sum(alloc) - Sum(Greedy(caps, qty)))
  {
    var taken := Min(qty, caps[0]);
    Unfold(p, caps, qty, alloc);
    hide Cost, Dot, Sum, Greedy;
    var rest := Greedy(caps[1..], qty - taken);
    PutHead(marginal, p[0], taken, alloc[0], Dot(p[1..], alloc[1..]), Dot(p[1..], rest),
            Sum(alloc[1..]), Sum(rest), Sum(alloc), Sum(Greedy(caps, qty)));
  }

  lemma {:induction false} Unfold(p: seq<int>, caps: seq<nat>, qty: nat, alloc: seq<nat>)
    requires |p| == |caps| == |alloc| > 0
    ensures var taken := Min(qty, caps[0]);
            var rest := Greedy(caps[1..], qty - taken);
            && Sum(alloc) == alloc[0] + Sum(alloc[1..])
            && Sum(Greedy(caps, qty)) == taken + Sum(rest)
            && Dot(p, alloc) == Cost(p[0], alloc[0]) + Dot(p[1..], alloc[1..])
            && Dot(p, Greedy(caps, qty)) == Cost(p[0], taken) + Dot(p[1..], rest)
  {
    var taken := Min(qty, caps[0]);
    assert Greedy(caps, qty)[1..] == Greedy(caps[1..], qty - taken);
  }

  lemma {:induction false} PutHead(marginal: int, price: int, taken: nat, given: nat, allocTail: int, greedyTail: int,
                allocTotal: nat, greedyTotal: nat, alloc: nat, greedy: nat)
    requires price == marginal || (price <= marginal && given <= taken)
    requires allocTail - greedyTail >= Cost(marginal, allocTotal - greedyTotal)
    requires alloc == given + allocTotal && greedy == taken + greedyTotal
    ensures (Cost(price, given) + allocTail) - (Cost(price, taken) + greedyTail)
            >= Cost(marginal, alloc - greedy)
  {
    if price != marginal {
      Factor(marginal, price, taken - given);
    }
    assert marginal * (alloc - greedy)
        == marginal * (allocTotal - greedyTotal) - marginal * (taken - given);
    assert price * given - price * taken == -(price * (taken - given));
  }

  lemma {:induction false} GreedyIsCheapest(p: seq<int>, caps: seq<nat>, qty: nat, alloc: seq<nat>)
    requires |p| == |caps| && Within(alloc, caps) && Rising(p)
    requires Sum(alloc) == Sum(Greedy(caps, qty))
    ensures Dot(p, Greedy(caps, qty)) <= Dot(p, alloc)
  {
    var marginal := MarginalPrice(p, caps, qty, alloc, if p == [] then 0 else p[0]);
    assert marginal * 0 == 0;
  }

  // ---- What a sweep takes and pays -----------------------------------------------------------

  function Paid(fills: seq<Fill>): int {
    if fills == [] then 0 else Cost(fills[0].price, fills[0].qty) + Paid(fills[1..])
  }

  lemma {:induction false} PaidConcat(a: seq<Fill>, b: seq<Fill>)
    ensures Paid(a + b) == Paid(a) + Paid(b)
  {
    if a == [] {
      assert a + b == b;
    } else {
      assert (a + b)[1..] == a[1..] + b;
      PaidConcat(a[1..], b);
    }
  }

  lemma {:induction false} CostSum(price: int, a: int, b: int)
    ensures Cost(price, a + b) == Cost(price, a) + Cost(price, b)
    ensures Cost(price, 0) == 0
  {
  }

  /** One level gives the taker all it has, or all that is wanted, at its price. */
  lemma {:induction false} MatchListTakes(orders: seq<Resting>, price: nat, qty: nat)
    requires forall j :: 0 <= j < |orders| ==> orders[j].price == price
    ensures var m := MatchList(orders, qty);
            var taken := Min(qty, Volume(orders));
            && FillVolume(m.fills) == taken == qty - m.qty
            && Volume(m.rest) == Volume(orders) - taken
            && Paid(m.fills) == Cost(price, taken)
  {
    hide Cost;
    CostSum(price, 0, 0);
    if orders != [] {
      var head := orders[0];
      if qty >= head.qty {
        MatchListTakes(orders[1..], price, qty - head.qty);
        var m := MatchList(orders[1..], qty - head.qty);
        assert ([FillOf(head, head.qty)] + m.fills)[1..] == m.fills;
        CostSum(price, head.qty, Min(qty - head.qty, Volume(orders[1..])));
      } else {
        var left := [head.(qty := head.qty - qty)] + orders[1..];
        assert left[1..] == orders[1..];
        assert Paid([FillOf(head, qty)]) == Cost(price, qty) + Paid([]);
      }
    }
  }

  /** What a taker may get from each level. */
  function Caps(levels: seq<Level>, taker: Side, limit: nat): (caps: seq<nat>)
    ensures |caps| == |levels|
  {
    seq(|levels|, i requires 0 <= i < |levels| =>
          if Crosses(taker, levels[i].price, limit) then Volume(levels[i].orders) else 0)
  }

  function Prices(levels: seq<Level>): (p: seq<int>)
    ensures |p| == |levels|
  {
    seq(|levels|, i requires 0 <= i < |levels| => levels[i].price)
  }

  lemma {:induction false} TailsOfLevels(levels: seq<Level>, taker: Side, limit: nat)
    requires levels != []
    ensures Caps(levels, taker, limit)[1..] == Caps(levels[1..], taker, limit)
    ensures Prices(levels)[1..] == Prices(levels[1..]) && Prices(levels)[0] == levels[0].price
  {
  }

  lemma {:induction false} NothingTaken(p: seq<int>, a: seq<nat>)
    requires |p| == |a| && Sum(a) == 0
    ensures Dot(p, a) == 0
  {
    if p != [] {
      NothingTaken(p[1..], a[1..]);
    }
  }

  lemma {:induction false} NoCaps(caps: seq<nat>)
    requires forall i :: 0 <= i < |caps| ==> caps[i] == 0
    ensures Sum(caps) == 0
  {
    if caps != [] {
      NoCaps(caps[1..]);
    }
  }

  /** The sweep executes the smaller of what is wanted and what crosses, pays for it level by level
      from the best price on, and takes exactly that out of the book. */
  ghost predicate Takes(levels: seq<Level>, taker: Side, limit: nat, qty: nat) {
    var sw := Sweep(levels, taker, limit, qty);
    var caps := Caps(levels, taker, limit);
    && FillVolume(sw.fills) == Min(qty, Sum(caps)) == qty - sw.qty
    && Volume(Flatten(sw.levels)) == Volume(Flatten(levels)) - FillVolume(sw.fills)
    && Paid(sw.fills) == Dot(Prices(levels), Greedy(caps, qty))
  }

  lemma {:induction false} SweepTakes(levels: seq<Level>, taker: Side, limit: nat, qty: nat)
    requires Sorted(levels, taker.Opposite()) && AllPlaced(levels, taker.Opposite())
    ensures Takes(levels, taker, limit, qty)
  {
    if levels == [] {
    } else if qty == 0 || !Crosses(taker, levels[0].price, limit) {
      var caps := Caps(levels, taker, limit);
      if qty > 0 {
        assert forall i :: 0 < i < |levels| ==> Better(taker.Opposite(), levels[0].price, levels[i].price);
        NoCaps(caps);
      }
      NothingTaken(Prices(levels), Greedy(caps, qty));
    } else {
      SweepTakes(levels[1..], taker, limit, MatchList(levels[0].orders, qty).qty);
      TakesOn(levels, taker, limit, qty);
    }
  }

  lemma {:induction false} TakesOn(levels: seq<Level>, taker: Side, limit: nat, qty: nat)
    requires AllPlaced(levels, taker.Opposite())
    requires levels != [] && qty > 0 && Crosses(taker, levels[0].price, limit)
    requires Takes(levels[1..], taker, limit, MatchList(levels[0].orders, qty).qty)
    ensures Takes(levels, taker, limit, qty)
  {
    hide Cost, Sweep, MatchList, Flatten, Volume, FillVolume, Paid, Dot, Greedy, Sum;
    var caps := Caps(levels, taker, limit);
    MatchListTakes(levels[0].orders, levels[0].price, qty);
    SweepUnfold(levels, taker, limit, qty);
    TailsOfLevels(levels, taker, limit);
    Unfold(Prices(levels), caps, qty, caps);
  }

  lemma {:induction false} SweepUnfold(levels: seq<Level>, taker: Side, limit: nat, qty: nat)
    requires levels != [] && qty > 0 && Crosses(taker, levels[0].price, limit)
    ensures var sw := Sweep(levels, taker, limit, qty);
            var m := MatchList(levels[0].orders, qty);
            var tail := Sweep(levels[1..], taker, limit, m.qty);
            && sw.qty == tail.qty
            && FillVolume(sw.fills) == FillVolume(m.fills) + FillVolume(tail.fills)
            && Paid(sw.fills) == Paid(m.fills) + Paid(tail.fills)
            && Volume(Flatten(sw.levels)) == Volume(m.rest) + Volume(Flatten(tail.levels))
            && Volume(Flatten(levels)) == Volume(levels[0].orders) + Volume(Flatten(levels[1..]))
  {
    var m := MatchList(levels[0].orders, qty);
    var tail := Sweep(levels[1..], taker, limit, m.qty);
    FillVolumeConcat(m.fills, tail.fills);
    PaidConcat(m.fills, tail.fills);
    VolumeConcat(levels[0].orders, Flatten(levels[1..]));
    VolumeConcat(m.rest, Flatten(tail.levels));
  }

  // ---- Best first is best ------------------------------------------------------------------

  function Negated(p: seq<int>): (n: seq<int>)
    ensures |n| == |p|
  {
    seq(|p|, i requires 0 <= i < |p| => -p[i])
  }

  lemma {:induction false} DotNegated(p: seq<int>, a: seq<nat>)
    requires |p| == |a|
    ensures Dot(Negated(p), a) == -Dot(p, a)
  {
    if p != [] {
      assert Negated(p)[1..] == Negated(p[1..]);
      DotNegated(p[1..], a[1..]);
      assert -p[0] * a[0] == -(p[0] * a[0]);
    }
  }

  /** `x` is at least as good a deal as `y` for a taker on this side. */
  predicate NoWorse(taker: Side, x: int, y: int) {
    if taker.Buy? then x <= y else x >= y
  }

  /** Filling the levels greedily in map order is no worse than any other split over the levels. */
  lemma {:induction false} GreedyIsNoWorse(levels: seq<Level>, taker: Side, limit: nat, qty: nat, alloc: seq<nat>)
    requires Sorted(levels, taker.Opposite())
    requires var caps := Caps(levels, taker, limit);
             Within(alloc, caps) && Sum(alloc) == Sum(Greedy(caps, qty))
    ensures NoWorse(taker, Dot(Prices(levels), Greedy(Caps(levels, taker, limit), qty)),
                    Dot(Prices(levels), alloc))
  {
    var p, caps := Prices(levels), Caps(levels, taker, limit);
    if taker.Buy? {
      GreedyIsCheapest(p, caps, qty, alloc);
    } else {
      GreedyIsCheapest(Negated(p), caps, qty, alloc);
      DotNegated(p, Greedy(caps, qty));
      DotNegated(p, alloc);
    }
  }

  function Quantities(orders: seq<Resting>): (q: seq<nat>)
    ensures |q| == |orders|
  {
    seq(|orders|, i requires 0 <= i < |orders| => orders[i].qty)
  }

  /** Any way to take quantity from the makers a taker may trade with: `alloc[i][j]` from maker `j`
      of level `i`, never more than it has. */
  ghost predicate Taking(levels: seq<Level>, taker: Side, limit: nat, alloc: seq<seq<nat>>) {
    && |alloc| == |levels|
    && forall i :: 0 <= i < |levels| ==>
         && Within(alloc[i], Quantities(levels[i].orders))
         && (Sum(alloc[i]) > 0 ==> Crosses(taker, levels[i].price, limit))
  }

  function LevelTotals(alloc: seq<seq<nat>>): (a: seq<nat>)
    ensures |a| == |alloc|
  {
    seq(|alloc|, i requires 0 <= i < |alloc| => Sum(alloc[i]))
  }

  /** What the makers of one level are paid, each at its own price. */
  function PaidTo(orders: seq<Resting>, amounts: seq<nat>): int
    requires |orders| == |amounts|
  {
    if orders == [] then 0 else Cost(orders[0].price, amounts[0]) + PaidTo(orders[1..], amounts[1..])
  }

  function PaidToAll(levels: seq<Level>, alloc: seq<seq<nat>>): int
    requires |alloc| == |levels| && forall i :: 0 <= i < |levels| ==> |alloc[i]| == |levels[i].orders|
  {
    if levels == [] then 0 else PaidTo(levels[0].orders, alloc[0]) + PaidToAll(levels[1..], alloc[1..])
  }

  lemma {:induction false} PaidToLevel(orders: seq<Resting>, amounts: seq<nat>, price: nat)
    requires |orders| == |amounts|
    requires forall j :: 0 <= j < |orders| ==> orders[j].price == price
    ensures PaidTo(orders, amounts) == Cost(price, Sum(amounts))
  {
    if orders != [] {
      PaidToLevel(orders[1..], amounts[1..], price);
      CostSum(price, amounts[0], Sum(amounts[1..]));
    }
  }

  lemma {:induction false} PaidToLevels(levels: seq<Level>, alloc: seq<seq<nat>>, side: Side)
    requires |alloc| == |levels| && forall i :: 0 <= i < |levels| ==> |alloc[i]| == |levels[i].orders|
    requires AllPlaced(levels, side)
    ensures PaidToAll(levels, alloc) == Dot(Prices(levels), LevelTotals(alloc))
  {
    if levels != [] {
      PaidToLevel(levels[0].orders, alloc[0], levels[0].price);
      PaidToLevels(levels[1..], alloc[1..], side);
      assert Prices(levels)[1..] == Prices(levels[1..]);
      assert LevelTotals(alloc)[1..] == LevelTotals(alloc[1..]);
    }
  }

  lemma {:induction false} WithinVolume(orders: seq<Resting>, amounts: seq<nat>)
    requires Within(amounts, Quantities(orders))
    ensures Sum(amounts) <= Volume(orders)
  {
    if orders != [] {
      assert Quantities(orders)[1..] == Quantities(orders[1..]);
      WithinVolume(orders[1..], amounts[1..]);
    }
  }

  /** Among all ways to take the executed quantity from crossing makers, the sweep gives the taker
      the best total price: a buyer pays least, a seller receives most. */
  lemma {:induction false} SweepIsOptimal(levels: seq<Level>, taker: Side, limit: nat, qty: nat, alloc: seq<seq<nat>>)
    requires Sorted(levels, taker.Opposite()) && AllPlaced(levels, taker.Opposite())
    requires Taking(levels, taker, limit, alloc)
    requires Sum(LevelTotals(alloc)) == FillVolume(Sweep(levels, taker, limit, qty).fills)
    ensures NoWorse(taker, Paid(Sweep(levels, taker, limit, qty).fills), PaidToAll(levels, alloc))
  {
    SweepTakes(levels, taker, limit, qty);
    PaidToLevels(levels, alloc, taker.Opposite());
    forall i | 0 <= i < |levels| ensures LevelTotals(alloc)[i] <= Caps(levels, taker, limit)[i] {
      WithinVolume(levels[i].orders, alloc[i]);
    }
    GreedyIsNoWorse(levels, taker, limit, qty, LevelTotals(alloc));
  }
}
