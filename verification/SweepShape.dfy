/** The nested sweep against its reference: one pass over the flattened opposite queue. */
module SweepShape {
  import opened Words
  import opened OrderBook

  function Volume(orders: seq<Resting>): nat {
    if orders == [] then 0 else orders[0].qty + Volume(orders[1..])
  }

  function FillVolume(fills: seq<Fill>): nat {
    if fills == [] then 0 else fills[0].qty + FillVolume(fills[1..])
  }

  /** Every maker of the sequence filled completely, in order. */
  function FullFills(orders: seq<Resting>): (fills: seq<Fill>) {
    if orders == [] then [] else [FillOf(orders[0], orders[0].qty)] + FullFills(orders[1..])
  }

  /** A stopping point of a taker in a queue of which the first `crossing` makers are within its
      limit: `k` makers can be consumed whole, and then the taker either runs dry inside maker `k`
      (`touched`), or is dry already, or has met every crossing maker. */
  ghost predicate StopsAt(queue: seq<Resting>, crossing: nat, qty: nat, k: nat, touched: bool)
  {
    && k <= crossing <= |queue|
    && Volume(queue[..k]) <= qty
    && var wanted := qty - Volume(queue[..k]);
       if touched then k < crossing && wanted < queue[k].qty
       else k < crossing ==> wanted == 0
  }

  /** What is left at a stopping point: the first `k` makers are consumed whole and, if `touched`,
      maker `k` gives what the taker still wants; everything behind keeps its quantity and place. */
  ghost function Served(queue: seq<Resting>, crossing: nat, qty: nat, k: nat, touched: bool): Option<Matched>
  {
    if !StopsAt(queue, crossing, qty, k, touched) then
      None
    else
      var wanted := qty - Volume(queue[..k]);
      Some(if touched then
             Matched([queue[k].(qty := queue[k].qty - wanted)] + queue[k + 1..], 0,
                     FullFills(queue[..k]) + [FillOf(queue[k], wanted)])
           else
             Matched(queue[k..], wanted, FullFills(queue[..k])))
  }

  lemma {:induction false} VolumeConcat(a: seq<Resting>, b: seq<Resting>)
    ensures Volume(a + b) == Volume(a) + Volume(b)
  {
    if a == [] {
      assert a + b == b;
    } else {
      assert (a + b)[1..] == a[1..] + b;
      VolumeConcat(a[1..], b);
    }
  }

  lemma {:induction false} FillVolumeConcat(a: seq<Fill>, b: seq<Fill>)
    ensures FillVolume(a + b) == FillVolume(a) + FillVolume(b)
  {
    if a == [] {
      assert a + b == b;
    } else {
      assert (a + b)[1..] == a[1..] + b;
      FillVolumeConcat(a[1..], b);
    }
  }

  lemma {:induction false} FullFillVolume(orders: seq<Resting>)
    ensures FillVolume(FullFills(orders)) == Volume(orders)
  {
    if orders != [] {
      FullFillVolume(orders[1..]);
    }
  }

  lemma {:induction false} FullFillsConcat(a: seq<Resting>, b: seq<Resting>)
    ensures FullFills(a + b) == FullFills(a) + FullFills(b)
  {
    if a == [] {
      assert a + b == b;
    } else {
      assert (a + b)[1..] == a[1..] + b;
      FullFillsConcat(a[1..], b);
    }
  }

  // ---- One level -------------------------------------------------------------------------

  lemma {:induction false} MatchListShape(orders: seq<Resting>, qty: nat)
    returns (k: nat, touched: bool)
    ensures Served(orders, |orders|, qty, k, touched) == Some(MatchList(orders, qty))
    ensures !touched ==> k == |orders|
  {
    if orders == [] {
      k, touched := 0, false;
    } else if qty >= orders[0].qty {
      k, touched := MatchListShape(orders[1..], qty - orders[0].qty);
      var front := [orders[0]];
      assert front + orders[1..] == orders && front[1..] == [];
      assert FullFills(front) == [FillOf(orders[0], orders[0].qty)];
      ConsumeFront(front, orders[1..], |orders| - 1, qty, k, touched);
      k := k + 1;
    } else {
      k, touched := 0, true;
      assert orders[..0] == [];
      assert [] + [FillOf(orders[0], qty)] == [FillOf(orders[0], qty)];
    }
  }

  /** Makers put in front that the taker consumes whole move the stopping point by their number. */
  lemma {:induction false} ConsumeFront(front: seq<Resting>, queue: seq<Resting>, crossing: nat,
                                        qty: nat, k: nat, touched: bool)
    requires qty >= Volume(front)
    requires Served(queue, crossing, qty - Volume(front), k, touched).Some?
    ensures var m := Served(queue, crossing, qty - Volume(front), k, touched).value;
            Served(front + queue, |front| + crossing, qty, |front| + k, touched)
            == Some(m.(fills := FullFills(front) + m.fills))
  {
    var n, whole := |front|, front + queue;
    assert whole[..n + k] == front + queue[..k];
    VolumeConcat(front, queue[..k]);
    FullFillsConcat(front, queue[..k]);
    assert whole[n + k..] == queue[k..];
    if touched {
      assert whole[n + k + 1..] == queue[k + 1..];
      var last := [FillOf(queue[k], qty - Volume(front) - Volume(queue[..k]))];
      assert FullFills(whole[..n + k]) + last == FullFills(front) + (FullFills(queue[..k]) + last);
    }
  }

  /** Makers put behind the one that exhausts the taker are left alone. */
  lemma {:induction false} AppendUntouched(front: seq<Resting>, behind: seq<Resting>, crossing: nat,
                                           qty: nat, k: nat)
    requires crossing <= |behind|
    requires Served(front, |front|, qty, k, true).Some?
    ensures var m := Served(front, |front|, qty, k, true).value;
            Served(front + behind, |front| + crossing, qty, k, true)
            == Some(m.(rest := m.rest + behind))
  {
    assert (front + behind)[..k] == front[..k];
    assert (front + behind)[k + 1..] == front[k + 1..] + behind;
    var reduced := [front[k].(qty := front[k].qty - (qty - Volume(front[..k])))];
    assert reduced + (front + behind)[k + 1..] == reduced + front[k + 1..] + behind;
  }

  // ---- The whole side --------------------------------------------------------------------

  /** How many makers, counted from the front of the flattened side, sit at crossing levels. */
  function CrossingCount(levels: seq<Level>, taker: Side, limit: nat): (n: nat)
    ensures n <= |Flatten(levels)|
  {
    if levels == [] || !Crosses(taker, levels[0].price, limit) then 0
    else |levels[0].orders| + CrossingCount(levels[1..], taker, limit)
  }

  /** The sweep with its levels flattened. */
  function Flat(sw: Swept): Matched {
    Matched(Flatten(sw.levels), sw.qty, sw.fills)
  }

  /** The taker runs dry inside the first level. */
  lemma {:induction false} StopInside(levels: seq<Level>, taker: Side, limit: nat, qty: nat, k: nat)
    requires levels != [] && qty > 0 && Crosses(taker, levels[0].price, limit)
    requires Served(levels[0].orders, |levels[0].orders|, qty, k, true)
             == Some(MatchList(levels[0].orders, qty))
    ensures Served(Flatten(levels), CrossingCount(levels, taker, limit), qty, k, true)
            == Some(Flat(Sweep(levels, taker, limit, qty)))
  {
    var m := MatchList(levels[0].orders, qty);
    AppendUntouched(levels[0].orders, Flatten(levels[1..]), CrossingCount(levels[1..], taker, limit), qty, k);
    assert m.fills + [] == m.fills;
    var after := [Level(levels[0].price, m.rest)] + levels[1..];
    assert after[1..] == levels[1..];
  }

  /** The taker consumes the first level and goes on with what it still wants. */
  lemma {:induction false} GoOn(levels: seq<Level>, taker: Side, limit: nat, qty: nat, wanted: nat,
                                k: nat, touched: bool)
    requires levels != [] && qty > 0 && Crosses(taker, levels[0].price, limit)
    requires qty == Volume(levels[0].orders) + wanted
    requires MatchList(levels[0].orders, qty) == Matched([], wanted, FullFills(levels[0].orders))
    requires Served(Flatten(levels[1..]), CrossingCount(levels[1..], taker, limit), wanted, k, touched)
             == Some(Flat(Sweep(levels[1..], taker, limit, wanted)))
    ensures Served(Flatten(levels), CrossingCount(levels, taker, limit), qty, |levels[0].orders| + k, touched)
            == Some(Flat(Sweep(levels, taker, limit, qty)))
  {
    hide Served, Volume, FullFills;
    var front, behind := levels[0].orders, Flatten(levels[1..]);
    var c := CrossingCount(levels[1..], taker, limit);
    var tail := Sweep(levels[1..], taker, limit, wanted);
    assert Served(front + behind, |front| + c, qty, |front| + k, touched)
        == Some(Matched(Flatten(tail.levels), tail.qty, FullFills(front) + tail.fills)) by {
      ConsumeFront(front, behind, c, qty, k, touched);
    }
    assert Flatten(levels) == front + behind;
    assert CrossingCount(levels, taker, limit) == |front| + c;
    assert Sweep(levels, taker, limit, qty) == Swept(tail.levels, tail.qty, FullFills(front) + tail.fills);
  }

  /** The nested sweep consumes a prefix of the crossing makers, reduces at most the next one,
      leaves all others alone and in order, and logs exactly that, in that order. */
  lemma {:induction false} SweepIsServed(levels: seq<Level>, taker: Side, limit: nat, qty: nat)
    returns (k: nat, touched: bool)
    ensures Served(Flatten(levels), CrossingCount(levels, taker, limit), qty, k, touched)
            == Some(Flat(Sweep(levels, taker, limit, qty)))
  {
    if levels == [] || qty == 0 || !Crosses(taker, levels[0].price, limit) {
      k, touched := 0, false;
      assert Flatten(levels)[..0] == [];
    } else {
      var front := levels[0].orders;
      k, touched := MatchListShape(front, qty);
      if touched {
        StopInside(levels, taker, limit, qty, k);
      } else {
        assert front[..k] == front && front[k..] == [];
        var wanted := qty - Volume(front);
        k, touched := SweepIsServed(levels[1..], taker, limit, wanted);
        GoOn(levels, taker, limit, qty, wanted, k, touched);
        k := |front| + k;
      }
    }
  }

  // ---- Zero-quantity trades ----------------------------------------------------------------

  ghost predicate PositiveQueue(orders: seq<Resting>) {
    forall j :: 0 <= j < |orders| ==> orders[j].qty > 0
  }

  ghost predicate PositiveSide(levels: seq<Level>) {
    forall i :: 0 <= i < |levels| ==> PositiveQueue(levels[i].orders)
  }

  predicate SomeZero(fills: seq<Fill>) {
    exists i :: 0 <= i < |fills| && fills[i].qty == 0
  }

  predicate EndsWithZero(fills: seq<Fill>) {
    fills != [] && fills[|fills| - 1].qty == 0
  }

  ghost predicate OnlyLastZero(fills: seq<Fill>) {
    forall i :: 0 <= i < |fills| - 1 ==> fills[i].qty > 0
  }

  /** A taker of this quantity reaches maker `j` of a level, and one of the two then has nothing. */
  ghost predicate ZeroAt(orders: seq<Resting>, qty: nat, j: nat) {
    j < |orders| && Volume(orders[..j]) <= qty && (orders[j].qty == 0 || Volume(orders[..j]) == qty)
  }

  /** In some level the taker reaches, it comes to a maker without quantity, or has nothing left
      itself when it comes to a maker. */
  ghost predicate ZeroInside(levels: seq<Level>, taker: Side, limit: nat, qty: nat) {
    && levels != [] && qty > 0 && Crosses(taker, levels[0].price, limit)
    && ((exists j: nat :: ZeroAt(levels[0].orders, qty, j))
        || (qty > Volume(levels[0].orders)
            && ZeroInside(levels[1..], taker, limit, qty - Volume(levels[0].orders))))
  }

  lemma {:induction false} ZeroFillsOfLevel(orders: seq<Resting>, qty: nat)
    ensures SomeZero(MatchList(orders, qty).fills) <==> exists j: nat :: ZeroAt(orders, qty, j)
    decreases orders, 1
  {
    if orders == [] {
    } else if qty >= orders[0].qty {
      ZeroFillsBehind(orders, qty);
    } else {
      assert qty == 0 ==> ZeroAt(orders, qty, 0);
      forall j | 0 < j < |orders| ensures Volume(orders[..j]) >= orders[0].qty {
        assert orders[..j][0] == orders[0];
      }
      var fills := MatchList(orders, qty).fills;
      assert fills[0].qty == qty;
    }
  }

  lemma {:induction false} ZeroFillsBehind(orders: seq<Resting>, qty: nat)
    requires orders != [] && qty >= orders[0].qty
    ensures SomeZero(MatchList(orders, qty).fills) <==> exists j: nat :: ZeroAt(orders, qty, j)
    decreases orders, 0
  {
    var behind, left := orders[1..], qty - orders[0].qty;
    ZeroFillsOfLevel(behind, left);
    var fills, rest := MatchList(orders, qty).fills, MatchList(behind, left).fills;
    assert fills == [FillOf(orders[0], orders[0].qty)] + rest;
    assert ZeroAt(orders, qty, 0) <==> orders[0].qty == 0;
    forall j: nat ensures ZeroAt(orders, qty, j + 1) <==> ZeroAt(behind, left, j) {
      if j < |behind| {
        assert orders[..j + 1] == [orders[0]] + behind[..j];
      }
    }
    hide ZeroAt, MatchList;
    assert SomeZero(fills) <==> orders[0].qty == 0 || SomeZero(rest) by { ZeroJoins(fills[0], rest); }
    if exists j: nat :: ZeroAt(orders, qty, j) {
      var j: nat :| ZeroAt(orders, qty, j);
      if j > 0 {
        assert ZeroAt(behind, left, j - 1);
      }
    }
    if exists j: nat :: ZeroAt(behind, left, j) {
      var j: nat :| ZeroAt(behind, left, j);
      assert ZeroAt(orders, qty, j + 1);
    }
  }

  lemma {:induction false} ZeroJoins(first: Fill, rest: seq<Fill>)
    ensures SomeZero([first] + rest) <==> first.qty == 0 || SomeZero(rest)
  {
    var fills := [first] + rest;
    assert fills[0] == first;
    forall i | 0 <= i < |rest| ensures fills[i + 1] == rest[i] {}
    if SomeZero(fills) && first.qty != 0 {
      var i :| 0 <= i < |fills| && fills[i].qty == 0;
      assert rest[i - 1].qty == 0;
    }
  }

  lemma {:induction false} ZeroConcat(a: seq<Fill>, b: seq<Fill>)
    ensures SomeZero(a + b) <==> SomeZero(a) || SomeZero(b)
  {
    if a == [] {
      assert a + b == b;
    } else {
      assert a + b == [a[0]] + (a[1..] + b) && a == [a[0]] + a[1..];
      ZeroConcat(a[1..], b);
      ZeroJoins(a[0], a[1..] + b);
      ZeroJoins(a[0], a[1..]);
    }
  }

  /** A trade of quantity zero is logged exactly when the taker comes to a maker without quantity, or
      comes to a maker of the level it is in after it has run dry. */
  lemma {:induction false} ZeroTradeExactly(levels: seq<Level>, taker: Side, limit: nat, qty: nat)
    ensures SomeZero(Sweep(levels, taker, limit, qty).fills) <==> ZeroInside(levels, taker, limit, qty)
  {
    hide SomeZero, ZeroAt, MatchList, Volume;
    if levels != [] && qty > 0 && Crosses(taker, levels[0].price, limit) {
      var front := levels[0].orders;
      var m := MatchList(front, qty);
      ZeroFillsOfLevel(front, qty);
      MatchListEnds(front, qty);
      ZeroTradeExactly(levels[1..], taker, limit, m.qty);
      ZeroConcat(m.fills, Sweep(levels[1..], taker, limit, m.qty).fills);
      SweepOfNothing(levels[1..], taker, limit);
    } else {
      NoFills();
    }
  }

  lemma {:induction false} NoFills()
    ensures !SomeZero([])
  {
  }

  lemma {:induction false} SweepOfNothing(levels: seq<Level>, taker: Side, limit: nat)
    ensures Sweep(levels, taker, limit, 0).fills == [] && !ZeroInside(levels, taker, limit, 0)
  {
  }

  /** The wanted quantity is exactly that of the first `j` makers, and one more stands behind. */
  ghost predicate DryBefore(orders: seq<Resting>, qty: nat, j: nat) {
    j < |orders| && Volume(orders[..j]) == qty
  }

  /** The taker is filled exactly by whole makers, the last of them not the last of its level. */
  ghost predicate DryInside(levels: seq<Level>, taker: Side, limit: nat, qty: nat) {
    && levels != [] && qty > 0 && Crosses(taker, levels[0].price, limit)
    && ((exists j: nat :: DryBefore(levels[0].orders, qty, j))
        || (qty > Volume(levels[0].orders)
            && DryInside(levels[1..], taker, limit, qty - Volume(levels[0].orders))))
  }

  lemma {:induction false} ZeroInsideIsDryInside(levels: seq<Level>, taker: Side, limit: nat, qty: nat)
    requires PositiveSide(levels)
    ensures ZeroInside(levels, taker, limit, qty) <==> DryInside(levels, taker, limit, qty)
  {
    hide Volume;
    if levels != [] && qty > 0 && Crosses(taker, levels[0].price, limit) {
      forall j: nat ensures ZeroAt(levels[0].orders, qty, j) <==> DryBefore(levels[0].orders, qty, j) {
        assert PositiveQueue(levels[0].orders);
      }
      if qty > Volume(levels[0].orders) {
        ZeroInsideIsDryInside(levels[1..], taker, limit, qty - Volume(levels[0].orders));
      }
    }
  }

  lemma {:induction false} LevelZeroIsLast(orders: seq<Resting>, qty: nat)
    requires PositiveQueue(orders)
    ensures OnlyLastZero(MatchList(orders, qty).fills)
    ensures MatchList(orders, qty).qty > 0 ==> !SomeZero(MatchList(orders, qty).fills)
  {
    if orders != [] && qty >= orders[0].qty {
      var rest := MatchList(orders[1..], qty - orders[0].qty).fills;
      LevelZeroIsLast(orders[1..], qty - orders[0].qty);
      ZeroJoins(FillOf(orders[0], orders[0].qty), rest);
    }
  }

  lemma {:induction false} ZeroIsLast(levels: seq<Level>, taker: Side, limit: nat, qty: nat)
    requires PositiveSide(levels)
    ensures OnlyLastZero(Sweep(levels, taker, limit, qty).fills)
  {
    hide MatchList;
    if levels != [] && qty > 0 && Crosses(taker, levels[0].price, limit) {
      var m := MatchList(levels[0].orders, qty);
      LevelZeroIsLast(levels[0].orders, qty);
      ZeroIsLast(levels[1..], taker, limit, m.qty);
      SweepOfNothing(levels[1..], taker, limit);
      var tail := Sweep(levels[1..], taker, limit, m.qty).fills;
      assert m.fills + [] == m.fills;
      LastJoins(m.fills, tail);
    }
  }

  lemma {:induction false} LastJoins(a: seq<Fill>, b: seq<Fill>)
    requires OnlyLastZero(a) && OnlyLastZero(b) && (b == [] || !SomeZero(a))
    ensures OnlyLastZero(a + b)
  {
    assert b == [] ==> a + b == a;
  }

  /** While no maker rests with quantity zero, a trade of quantity zero is logged only as the last
      one of a command, and exactly when the taker runs dry inside a level. */
  lemma {:induction false} ZeroTradeExactlyWhenDryInside(levels: seq<Level>, taker: Side, limit: nat, qty: nat)
    requires PositiveSide(levels)
    ensures var fills := Sweep(levels, taker, limit, qty).fills;
            && OnlyLastZero(fills)
            && (EndsWithZero(fills) <==> DryInside(levels, taker, limit, qty))
  {
    hide Sweep, DryInside, ZeroInside, PositiveSide;
    ZeroTradeExactly(levels, taker, limit, qty);
    ZeroInsideIsDryInside(levels, taker, limit, qty);
    ZeroIsLast(levels, taker, limit, qty);
  }

  /** Both zeroes: before a maker without quantity, and inside a level after running dry. */
  lemma {:induction false} ZeroTradesHappen(limit: nat)
    ensures var maker := (id: nat, qty: nat) => Resting(id, Sell, limit, qty);
            && Sweep([Level(limit, [maker(1, 0), maker(2, 3)])], Buy, limit, 3).fills
               == [Fill(1, limit, 0), Fill(2, limit, 3)]
            && Sweep([Level(limit, [maker(1, 3), maker(2, 3)])], Buy, limit, 3).fills
               == [Fill(1, limit, 3), Fill(2, limit, 0)]
  {
    var empty, first, second := Resting(1, Sell, limit, 0), Resting(1, Sell, limit, 3), Resting(2, Sell, limit, 3);
    assert [empty, second][1..] == [second] && [first, second][1..] == [second];
    assert MatchList([second], 3).fills == [Fill(2, limit, 3)];
    assert MatchList([second], 0).fills == [Fill(2, limit, 0)];
    assert MatchList([empty, second], 3) == Matched([], 0, [Fill(1, limit, 0), Fill(2, limit, 3)]);
    assert MatchList([first, second], 3) == Matched([second], 0, [Fill(1, limit, 3), Fill(2, limit, 0)]);
  }

  lemma {:induction false} MatchListEnds(orders: seq<Resting>, qty: nat)
    ensures var m := MatchList(orders, qty);
            if m.qty > 0 then qty == Volume(orders) + m.qty && m.rest == [] else qty <= Volume(orders)
  {
    if orders != [] && qty >= orders[0].qty {
      MatchListEnds(orders[1..], qty - orders[0].qty);
    }
  }
}
