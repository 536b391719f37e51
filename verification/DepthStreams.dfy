/** What a bounded flat map holds after a whole stream of pushes or of depth updates. */
module DepthStreams {

  import opened DepthValues

  ghost predicate Submap(m: map<real, real>, all: map<real, real>) {
    forall k :: k in m ==> k in all && m[k] == all[k]
  }

  lemma {:induction false} SubmapSize(m: map<real, real>, all: map<real, real>)
    requires Submap(m, all)
    ensures |m| <= |all|
    ensures |m| == |all| ==> m == all
    decreases |m|
  {
    if m != map[] {
      assert (forall k :: k !in m) ==> m == map[];
      var k :| k in m;
      assert (all - {k}).Keys == all.Keys - {k};
      assert (m - {k}).Keys == m.Keys - {k};
      SubmapSize(m - {k}, all - {k});
      assert all == (all - {k})[k := all[k]];
      assert m == (m - {k})[k := m[k]];
    } else if |all| == 0 {
      assert all == m;
    }
  }

  // ----- Insert-only streams -----

  /** The value each key came with first. */
  function FirstOf(pushes: seq<Node>): map<real, real> {
    if pushes == [] then map[]
    else
      var last := pushes[|pushes| - 1];
      Emplace(FirstOf(pushes[..|pushes| - 1]), last.key, last.value)
  }

  ghost function PushAll(order: SortOrder, capacity: nat, d: Depth, pushes: seq<Node>): (r: Depth)
    requires !d.Broken?
    ensures !r.Broken?
  {
    if pushes == [] then d
    else
      var last := pushes[|pushes| - 1];
      Pushed(order, capacity, PushAll(order, capacity, d, pushes[..|pushes| - 1]), last.key, last.value)
  }

  /** `m` holds exactly the `n` best keys of `all`, with their values. */
  ghost predicate HoldsBest(order: SortOrder, n: nat, all: map<real, real>, m: map<real, real>) {
    && Submap(m, all)
    && |m| == (if |all| < n then |all| else n)
    && forall k, j :: k in m && j in all && j !in m ==> Before(order, k, j)
  }

  lemma {:induction false} PushKeepsBest(order: SortOrder, n: nat, all: map<real, real>, m: map<real, real>, u: Node)
    requires n > 0 && HoldsBest(order, n, all, m)
    ensures HoldsBest(order, n, Emplace(all, u.key, u.value), BoundedPush(order, n, m, u.key, u.value))
  {
    var k, e, next := u.key, Emplace(m, u.key, u.value), Emplace(all, u.key, u.value);
    SubmapSize(m, all);
    if k in m {
    } else if k in all {
      assert m != all;
      assert e.Keys == m.Keys + {k};
      assert IsWorst(order, e, k);
      assert Worst(order, e) == k;
      assert e - {k} == m;
    } else if |m| < n {
      assert e == next;
      assert e.Keys == m.Keys + {k};
    } else {
      FullPushKeepsBest(order, n, all, m, u);
    }
  }

  lemma {:induction false} FullPushKeepsBest(order: SortOrder, n: nat, all: map<real, real>, m: map<real, real>,
                                             u: Node)
    requires n > 0 && HoldsBest(order, n, all, m) && |m| == n && u.key !in all
    ensures HoldsBest(order, n, all[u.key := u.value], BoundedPush(order, n, m, u.key, u.value))
  {
    var e := m[u.key := u.value];
    assert e.Keys == m.Keys + {u.key};
    var w := Worst(order, e);
    var r := e - {w};
    assert r.Keys == e.Keys - {w};
    var next := all[u.key := u.value];
    assert next.Keys == all.Keys + {u.key};
    forall x, j | x in r && j in next && j !in r
      ensures Before(order, x, j)
    {
      if j != w && x == u.key {
        assert Before(order, w, j);
      }
    }
  }

  /** The pushes that take effect: a leading push of the zero key is mistaken for slot 0's. */
  function Effective(pushes: seq<Node>): seq<Node> {
    if pushes != [] && pushes[0].key == 0.0 then Effective(pushes[1..]) else pushes
  }

  lemma {:induction false} LeadingZeroesAreLost(order: SortOrder, n: nat, pushes: seq<Node>)
    ensures PushAll(order, n, Fresh, pushes) == PushAll(order, n, Fresh, Effective(pushes))
  {
    if pushes != [] && pushes[0].key == 0.0 {
      FirstPushLost(order, n, pushes);
      LeadingZeroesAreLost(order, n, pushes[1..]);
    }
  }

  lemma {:induction false} FirstPushLost(order: SortOrder, n: nat, pushes: seq<Node>)
    requires pushes != [] && pushes[0].key == 0.0
    ensures PushAll(order, n, Fresh, pushes) == PushAll(order, n, Fresh, pushes[1..])
  {
    var k := |pushes| - 1;
    if k > 0 {
      FirstPushLost(order, n, pushes[..k]);
      assert pushes[..k][1..] == pushes[1..][..k - 1];
    }
  }

  lemma {:induction false} PushedIsBest(order: SortOrder, n: nat, pushes: seq<Node>)
    requires n > 0 && (pushes != [] ==> pushes[0].key != 0.0)
    ensures HoldsBest(order, n, FirstOf(pushes), Levels(PushAll(order, n, Fresh, pushes)))
    ensures pushes != [] ==> PushAll(order, n, Fresh, pushes).Live?
    ensures pushes != [] ==> FirstOf(pushes) != map[]
  {
    hide HoldsBest;
    if pushes == [] {
      NothingIsBest(order, n);
    } else {
      var k := |pushes| - 1;
      var last, before := pushes[k], PushAll(order, n, Fresh, pushes[..k]);
      PushedIsBest(order, n, pushes[..k]);
      assert !Hits(before, last.key);
      PushKeepsBest(order, n, FirstOf(pushes[..k]), Levels(before), last);
      BestOfSomeIsSome(order, n, FirstOf(pushes), BoundedPush(order, n, Levels(before), last.key, last.value));
    }
  }

  lemma {:induction false} NothingIsBest(order: SortOrder, n: nat)
    ensures HoldsBest(order, n, map[], map[])
  {
  }

  lemma {:induction false} BestOfSomeIsSome(order: SortOrder, n: nat, all: map<real, real>, m: map<real, real>)
    requires n > 0 && HoldsBest(order, n, all, m) && all != map[]
    ensures m != map[]
  {
    SubmapSize(map[], all);
  }

  /** After any stream of pushes the map holds the `n` best distinct keys that took effect, each with its
      first value. */
  lemma {:induction false} PushesKeepTheBest(order: SortOrder, n: nat, pushes: seq<Node>)
    requires n > 0
    ensures HoldsBest(order, n, FirstOf(Effective(pushes)), Levels(PushAll(order, n, Fresh, pushes)))
    ensures (forall i :: 0 <= i < |pushes| ==> pushes[i].key > 0.0) ==> Effective(pushes) == pushes
  {
    LeadingZeroesAreLost(order, n, pushes);
    EffectiveStart(pushes);
    PushedIsBest(order, n, Effective(pushes));
  }

  lemma {:induction false} EffectiveStart(pushes: seq<Node>)
    ensures Effective(pushes) != [] ==> Effective(pushes)[0].key != 0.0
  {
    if pushes != [] && pushes[0].key == 0.0 {
      EffectiveStart(pushes[1..]);
    }
  }

  /** The map is full of keys better than `k`. */
  ghost predicate Outranked(order: SortOrder, n: nat, m: map<real, real>, k: real) {
    |m| == n && k !in m && forall x :: x in m ==> Before(order, x, k)
  }

  lemma {:induction false} StaysOutranked(order: SortOrder, n: nat, m: map<real, real>, k: real, u: Node)
    requires n > 0 && Outranked(order, n, m, k)
    ensures Outranked(order, n, BoundedPush(order, n, m, u.key, u.value), k)
  {
    var e := Emplace(m, u.key, u.value);
    if u.key !in m {
      assert e.Keys == m.Keys + {u.key};
      var w := Worst(order, e);
      assert (e - {w}).Keys == e.Keys - {w};
      assert (forall x :: x !in m) ==> m == map[];
      var x :| x in m;
      if !Before(order, u.key, k) {
        assert Before(order, x, u.key);
        assert w == u.key;
      }
    }
  }

  lemma {:induction false} PushLeavesOutranked(order: SortOrder, n: nat, d: Depth, k: real, u: Node)
    requires n > 0 && !d.Broken? && Outranked(order, n, Levels(d), k)
    ensures Outranked(order, n, Levels(Pushed(order, n, d, u.key, u.value)), k)
  {
    hide Outranked, BoundedPush;
    OutrankedIsLive(order, n, Levels(d), k);
    StaysOutranked(order, n, Levels(d), k, u);
    OutrankedIsLive(order, n, BoundedPush(order, n, Levels(d), u.key, u.value), k);
  }

  lemma {:induction false} OutrankedForGood(order: SortOrder, n: nat, pushes: seq<Node>, at: nat, k: real)
    requires n > 0 && at <= |pushes|
    requires Outranked(order, n, Levels(PushAll(order, n, Fresh, pushes[..at])), k)
    ensures Outranked(order, n, Levels(PushAll(order, n, Fresh, pushes)), k)
  {
    hide Outranked, Pushed, Levels;
    if at == |pushes| {
      assert pushes[..at] == pushes;
    } else {
      var j := |pushes| - 1;
      assert pushes[..j][..at] == pushes[..at];
      OutrankedForGood(order, n, pushes[..j], at, k);
      PushLeavesOutranked(order, n, PushAll(order, n, Fresh, pushes[..j]), k, pushes[j]);
    }
  }

  lemma {:induction false} OutrankedIsLive(order: SortOrder, n: nat, m: map<real, real>, k: real)
    requires n > 0 && Outranked(order, n, m, k)
    ensures m != map[] && k !in m
  {
  }

  /** A key that was pushed and then evicted never comes back. */
  lemma {:induction false} EvictedNeverReturns(order: SortOrder, n: nat, pushes: seq<Node>, at: nat, k: real)
    requires n > 0 && at <= |pushes|
    requires k in FirstOf(Effective(pushes[..at]))
    requires k !in Levels(PushAll(order, n, Fresh, pushes[..at]))
    ensures k !in Levels(PushAll(order, n, Fresh, pushes))
  {
    var m, all := Levels(PushAll(order, n, Fresh, pushes[..at])), FirstOf(Effective(pushes[..at]));
    PushesKeepTheBest(order, n, pushes[..at]);
    SubmapSize(m, all);
    assert Outranked(order, n, m, k);
    OutrankedForGood(order, n, pushes, at, k);
  }

  // ----- Depth updates -----

  /** The unbounded price-to-quantity map the updates describe. */
  function Unbounded(updates: seq<Node>): map<real, real> {
    if updates == [] then map[]
    else
      var before, last := Unbounded(updates[..|updates| - 1]), updates[|updates| - 1];
      if last.value == 0.0 then before - {last.key} else before[last.key := last.value]
  }

  /** The quantity the latest update of a price carried; zero if it has none. */
  function Latest(updates: seq<Node>, price: real): real {
    if updates == [] then 0.0
    else if updates[|updates| - 1].key == price then updates[|updates| - 1].value
    else Latest(updates[..|updates| - 1], price)
  }

  lemma {:induction false} UnboundedIsLatest(updates: seq<Node>, price: real)
    ensures price in Unbounded(updates) <==> Latest(updates, price) != 0.0
    ensures price in Unbounded(updates) ==> Unbounded(updates)[price] == Latest(updates, price)
  {
    if updates != [] {
      UnboundedIsLatest(updates[..|updates| - 1], price);
    }
  }

  lemma {:induction false} PushStaysWithin(order: SortOrder, n: nat, d: Depth, u: Node)
    requires !d.Broken?
    ensures Submap(Levels(Pushed(order, n, d, u.key, u.value)), Emplace(Levels(d), u.key, u.value))
  {
    hide IsWorst;
  }

  lemma {:induction false} StepStaysWithin(order: SortOrder, n: nat, d: Depth, all: map<real, real>, u: Node)
    requires Submap(Levels(d), all)
    ensures Submap(Levels(Updated(order, n, d, u)), if u.value == 0.0 then all - {u.key} else all[u.key := u.value])
  {
    hide Pushed;
    if !d.Broken? && u.value != 0.0 {
      PushStaysWithin(order, n, d, u);
    }
  }

  lemma {:induction false} FoldWithin(order: SortOrder, n: nat, updates: seq<Node>)
    ensures Submap(Levels(Fold(order, n, Fresh, updates)), Unbounded(updates))
  {
    hide Submap;
    if updates != [] {
      var k := |updates| - 1;
      FoldWithin(order, n, updates[..k]);
      StepStaysWithin(order, n, Fold(order, n, Fresh, updates[..k]), Unbounded(updates[..k]), updates[k]);
    } else {
      assert Submap(map[], map[]) by { EmptyWithin(); }
    }
  }

  lemma {:induction false} EmptyWithin()
    ensures Submap(map[], map[])
  {
  }

  /** Whatever was evicted or lost: a price that is stored carries its latest quantity, and that is not zero. */
  lemma {:induction false} StoredIsLatest(order: SortOrder, n: nat, updates: seq<Node>, price: real)
    requires price in Levels(Fold(order, n, Fresh, updates))
    ensures Levels(Fold(order, n, Fresh, updates))[price] == Latest(updates, price) != 0.0
  {
    FoldWithin(order, n, updates);
    UnboundedIsLatest(updates, price);
  }

  /** The flat map shows exactly this map. */
  ghost predicate Shows(d: Depth, m: map<real, real>) {
    !d.Broken? && Levels(d) == m
  }

  /** While nothing is evicted, one update follows the unbounded map unless it hits the leftover slot. */
  lemma {:induction false} StepShowsUnlessHit(order: SortOrder, n: nat, d: Depth, m: map<real, real>, u: Node)
    requires Shows(d, m)
    requires |if u.value == 0.0 then m - {u.key} else m[u.key := u.value]| <= n && |m| <= n
    ensures Shows(Updated(order, n, d, u), if u.value == 0.0 then m - {u.key} else m[u.key := u.value])
       <==> !Hits(d, u.key)
  {
    if u.value != 0.0 {
      var e := Emplace(m, u.key, u.value);
      assert e.Keys == m[u.key := u.value].Keys;
      assert |e| == |m[u.key := u.value]|;
      assert u.key in m[u.key := u.value];
      assert e[u.key := u.value] == m[u.key := u.value];
    }
  }

  /** After `i` updates the flat map shows the unbounded map. */
  ghost predicate ShowsAt(order: SortOrder, n: nat, updates: seq<Node>, i: nat)
    requires i <= |updates|
  {
    Shows(Fold(order, n, Fresh, updates[..i]), Unbounded(updates[..i]))
  }

  /** The `i`-th update meets an empty side whose leftover slot has its price. */
  ghost predicate HitsAt(order: SortOrder, n: nat, updates: seq<Node>, i: nat)
    requires i < |updates|
  {
    Hits(Fold(order, n, Fresh, updates[..i]), updates[i].key)
  }

  ghost predicate Fits(n: nat, updates: seq<Node>) {
    forall i :: 0 <= i <= |updates| ==> |Unbounded(updates[..i])| <= n
  }

  lemma {:induction false} NextShowsUnlessHit(order: SortOrder, n: nat, updates: seq<Node>, i: nat)
    requires Fits(n, updates) && i < |updates| && ShowsAt(order, n, updates, i)
    ensures ShowsAt(order, n, updates, i + 1) <==> !HitsAt(order, n, updates, i)
  {
    hide Shows, Hits;
    assert updates[..i + 1][..i] == updates[..i];
    assert |Unbounded(updates[..i])| <= n && |Unbounded(updates[..i + 1])| <= n;
    StepShowsUnlessHit(order, n, Fold(order, n, Fresh, updates[..i]), Unbounded(updates[..i]), updates[i]);
  }

  lemma {:induction false} ShowsWithoutHits(order: SortOrder, n: nat, updates: seq<Node>, i: nat)
    requires Fits(n, updates) && i <= |updates|
    requires forall j :: 0 <= j < i ==> !HitsAt(order, n, updates, j)
    ensures ShowsAt(order, n, updates, i)
  {
    if i == 0 {
      FreshShowsNothing();
    } else {
      ShowsWithoutHits(order, n, updates, i - 1);
      NextShowsUnlessHit(order, n, updates, i - 1);
    }
  }

  /** While a side never has more than `n` live prices, it equals the unbounded map after every update
      exactly when no update hits the leftover slot of an empty side. */
  lemma {:induction false} ShowsExactlyWithoutHits(order: SortOrder, n: nat, updates: seq<Node>)
    requires Fits(n, updates)
    ensures (forall i :: 0 <= i <= |updates| ==> ShowsAt(order, n, updates, i))
       <==> (forall i :: 0 <= i < |updates| ==> !HitsAt(order, n, updates, i))
  {
    hide ShowsAt, HitsAt, Fits;
    if forall i :: 0 <= i < |updates| ==> !HitsAt(order, n, updates, i) {
      forall i | 0 <= i <= |updates| ensures ShowsAt(order, n, updates, i) {
        ShowsWithoutHits(order, n, updates, i);
      }
    }
    if forall i :: 0 <= i <= |updates| ==> ShowsAt(order, n, updates, i) {
      forall i | 0 <= i < |updates| ensures !HitsAt(order, n, updates, i) {
        assert ShowsAt(order, n, updates, i) && ShowsAt(order, n, updates, i + 1);
        NextShowsUnlessHit(order, n, updates, i);
      }
    }
  }

  /** The key the leftover slot of an empty side has: the one that emptied it last, and zero at first. */
  function Emptied(updates: seq<Node>): real {
    if updates == [] then 0.0
    else
      var front, last := updates[..|updates| - 1], updates[|updates| - 1];
      if Unbounded(updates) == map[] && Unbounded(front) != map[] then last.key else Emptied(front)
  }

  /** In terms of the stream alone: the `i`-th update has the price that emptied the side last. */
  predicate MeetsLeftover(updates: seq<Node>, i: nat)
    requires i < |updates|
  {
    Unbounded(updates[..i]) == map[] && updates[i].key == Emptied(updates[..i])
  }

  /** The side shows `m`, and if that is empty its leftover slot has this key. */
  ghost predicate Follows(d: Depth, m: map<real, real>, key: real) {
    Shows(d, m) && (d.Live? ==> m != map[]) && (d.Idle? ==> d.spare.key == key)
  }

  lemma {:induction false} StepFollows(order: SortOrder, n: nat, d: Depth, m: map<real, real>, key: real, u: Node)
    requires Follows(d, m, key) && !(m == map[] && u.key == key)
    requires |if u.value == 0.0 then m - {u.key} else m[u.key := u.value]| <= n && |m| <= n
    ensures var next := if u.value == 0.0 then m - {u.key} else m[u.key := u.value];
      Follows(Updated(order, n, d, u), next, if next == map[] && m != map[] then u.key else key)
  {
    hide BoundedPush;
    StepShowsUnlessHit(order, n, d, m, u);
    if u.value != 0.0 {
      assert u.key in m[u.key := u.value];
    }
  }

  lemma {:induction false} FollowsUntilMet(order: SortOrder, n: nat, updates: seq<Node>, i: nat)
    requires Fits(n, updates) && i <= |updates|
    requires forall j :: 0 <= j < i ==> !MeetsLeftover(updates, j)
    ensures Follows(Fold(order, n, Fresh, updates[..i]), Unbounded(updates[..i]), Emptied(updates[..i]))
  {
    hide Follows;
    if i == 0 {
      FreshFollows();
    } else {
      FollowsUntilMet(order, n, updates, i - 1);
      assert !MeetsLeftover(updates, i - 1);
      assert updates[..i][..i - 1] == updates[..i - 1];
      assert |Unbounded(updates[..i - 1])| <= n && |Unbounded(updates[..i])| <= n;
      var front := updates[..i - 1];
      StepFollows(order, n, Fold(order, n, Fresh, front), Unbounded(front), Emptied(front), updates[i - 1]);
    }
  }

  lemma {:induction false} FreshFollows()
    ensures Follows(Fresh, map[], 0.0)
  {
  }

  /** Up to the first one, the updates that meet the leftover slot are those the stream alone shows. */
  lemma {:induction false} FirstHitIsMet(order: SortOrder, n: nat, updates: seq<Node>, i: nat)
    requires Fits(n, updates) && i < |updates|
    requires forall j :: 0 <= j < i ==> !MeetsLeftover(updates, j)
    ensures HitsAt(order, n, updates, i) <==> MeetsLeftover(updates, i)
  {
    FollowsUntilMet(order, n, updates, i);
  }

  /** While a side never has more than `n` live prices, it equals the unbounded map after every update
      exactly when no update of the empty side has the price that emptied it last. */
  lemma {:induction false} ShowsExactlyUnlessMet(order: SortOrder, n: nat, updates: seq<Node>)
    requires Fits(n, updates)
    ensures (forall i :: 0 <= i <= |updates| ==> ShowsAt(order, n, updates, i))
       <==> (forall i :: 0 <= i < |updates| ==> !MeetsLeftover(updates, i))
  {
    hide ShowsAt, HitsAt, MeetsLeftover, Fits;
    ShowsExactlyWithoutHits(order, n, updates);
    if forall i :: 0 <= i < |updates| ==> !MeetsLeftover(updates, i) {
      forall i | 0 <= i < |updates| ensures !HitsAt(order, n, updates, i) {
        FirstHitIsMet(order, n, updates, i);
      }
    } else {
      var i := FirstMet(updates, |updates|);
      FirstHitIsMet(order, n, updates, i);
    }
  }

  lemma {:induction false} FirstMet(updates: seq<Node>, n: nat) returns (i: nat)
    requires n <= |updates| && exists j :: 0 <= j < n && MeetsLeftover(updates, j)
    ensures i < n && MeetsLeftover(updates, i)
    ensures forall j :: 0 <= j < i ==> !MeetsLeftover(updates, j)
  {
    hide MeetsLeftover;
    i := n - 1;
    if exists j :: 0 <= j < n - 1 && MeetsLeftover(updates, j) {
      i := FirstMet(updates, n - 1);
    }
  }

  lemma {:induction false} FreshShowsNothing()
    ensures Shows(Fresh, map[])
  {
  }

  /** The failing cases exist: re-adding the price just emptied is lost; erasing it again breaks the size. */
  lemma {:induction false} LeftoverFailures(order: SortOrder)
    ensures var d := Fold(order, 1000, Fresh, [Node(7.0, 1.0), Node(7.0, 0.0)]);
      && Levels(Updated(order, 1000, d, Node(7.0, 2.0))) == map[]
      && Updated(order, 1000, d, Node(7.0, 0.0)) == Broken
  {
    var a, b := Node(7.0, 1.0), Node(7.0, 0.0);
    assert [a, b][..1] == [a];
    assert [a][..0] == [];
    var one := Updated(order, 1000, Fresh, a);
    assert Fold(order, 1000, Fresh, [a]) == one;
    assert Emplace(map[], 7.0, 1.0) == map[7.0 := 1.0];
    assert |map[7.0 := 1.0]| == 1;
    assert one == Live(map[7.0 := 1.0]);
    assert map[7.0 := 1.0] - {7.0} == map[];
  }

  // ----- What one update does to any side -----

  /** One update of a side with room for `n` prices, price by price: a zero takes the price out; another
      quantity is stored at a stored price, at a new price if there is room, and on a full side if the
      price is better than the worst one, which alone then leaves. */
  ghost predicate Applied(order: SortOrder, n: nat, m: map<real, real>, after: map<real, real>, u: Node) {
    if u.value == 0.0 then after == m - {u.key}
    else if u.key in m || |m| < n then after == m[u.key := u.value]
    else
      exists w :: IsWorst(order, m, w) &&
        after == if Before(order, u.key, w) then (m - {w})[u.key := u.value] else m
  }

  lemma {:induction false} FullPush(order: SortOrder, n: nat, m: map<real, real>, u: Node)
    requires n > 0 && |m| == n && u.key !in m
    ensures exists w :: IsWorst(order, m, w)
    ensures forall w :: IsWorst(order, m, w) ==>
              BoundedPush(order, n, m, u.key, u.value)
              == if Before(order, u.key, w) then (m - {w})[u.key := u.value] else m
  {
    assert m != map[];
    WorstExists(order, m);
    var e := m[u.key := u.value];
    assert e.Keys == m.Keys + {u.key};
    forall w | IsWorst(order, m, w)
      ensures BoundedPush(order, n, m, u.key, u.value)
           == if Before(order, u.key, w) then (m - {w})[u.key := u.value] else m
    {
      if Before(order, u.key, w) {
        assert IsWorst(order, e, w);
        assert e - {w} == (m - {w})[u.key := u.value];
      } else {
        assert IsWorst(order, e, u.key);
        assert e - {u.key} == m;
      }
    }
  }

  lemma {:induction false} EraseApplies(order: SortOrder, n: nat, d: Depth, u: Node)
    requires !d.Broken? && !Hits(d, u.key) && u.value == 0.0
    ensures !Updated(order, n, d, u).Broken? && Levels(Updated(order, n, d, u)) == Levels(d) - {u.key}
  {
    hide Pushed;
    assert u.key !in Levels(d) ==> Levels(d) - {u.key} == Levels(d);
  }

  lemma {:induction false} PushLeavesSome(order: SortOrder, n: nat, m: map<real, real>, key: real, value: real)
    requires n > 0
    ensures BoundedPush(order, n, m, key, value) != map[]
  {
    var e := Emplace(m, key, value);
    assert key in e;
    if |e| == n + 1 {
      assert (e - {Worst(order, e)}).Keys == e.Keys - {Worst(order, e)};
    }
  }

  /** What is left of a push and the overwrite after it. */
  lemma {:induction false} PushThenWrite(order: SortOrder, n: nat, d: Depth, u: Node)
    requires n > 0 && !d.Broken? && !Hits(d, u.key) && u.value != 0.0
    ensures var p, next := BoundedPush(order, n, Levels(d), u.key, u.value), Updated(order, n, d, u);
      !next.Broken? && Levels(next) == if u.key in p then p[u.key := u.value] else p
  {
    hide BoundedPush;
    PushLeavesSome(order, n, Levels(d), u.key, u.value);
  }

  lemma {:induction false} RoomyPush(order: SortOrder, n: nat, m: map<real, real>, u: Node)
    requires |m| <= n && (u.key in m || |m| < n)
    ensures BoundedPush(order, n, m, u.key, u.value) == Emplace(m, u.key, u.value)
  {
    assert Emplace(m, u.key, u.value).Keys == m.Keys + {u.key};
  }

  /** Every update of a side that does not meet its leftover slot has that effect, full or not. */
  lemma {:induction false} UpdateApplies(order: SortOrder, n: nat, d: Depth, u: Node)
    requires n > 0 && !d.Broken? && |Levels(d)| <= n && !Hits(d, u.key)
    ensures !Updated(order, n, d, u).Broken?
    ensures Applied(order, n, Levels(d), Levels(Updated(order, n, d, u)), u)
  {
    hide Updated, BoundedPush, IsWorst, Hits, Levels;
    var m := Levels(d);
    if u.value == 0.0 {
      EraseApplies(order, n, d, u);
    } else {
      PushThenWrite(order, n, d, u);
      if u.key in m || |m| < n {
        RoomyPush(order, n, m, u);
        assert Emplace(m, u.key, u.value)[u.key := u.value] == m[u.key := u.value];
      } else {
        FullPush(order, n, m, u);
        var w :| IsWorst(order, m, w);
        assert (m - {w})[u.key := u.value][u.key := u.value] == (m - {w})[u.key := u.value];
      }
    }
  }

  lemma {:induction false} FoldFits(order: SortOrder, n: nat, updates: seq<Node>)
    ensures |Levels(Fold(order, n, Fresh, updates))| <= n
  {
    if updates != [] {
      var k := |updates| - 1;
      FoldFits(order, n, updates[..k]);
      StepFitsIn(order, n, Fold(order, n, Fresh, updates[..k]), updates[k]);
    }
  }

  lemma {:induction false} StepFitsIn(order: SortOrder, n: nat, d: Depth, u: Node)
    requires |Levels(d)| <= n
    ensures |Levels(Updated(order, n, d, u))| <= n
  {
    if !d.Broken? && u.value == 0.0 && u.key in Levels(d) {
      assert (Levels(d) - {u.key}).Keys == Levels(d).Keys - {u.key};
    } else if !d.Broken? && u.value != 0.0 && !Hits(d, u.key) {
      var p := Levels(Pushed(order, n, d, u.key, u.value));
      hide BoundedPush;
      assert u.key in p ==> p[u.key := u.value].Keys == p.Keys;
    }
  }

  /** After any stream, evictions and all, an update at a price better than all that is stored is stored
      with its quantity and is the best price. */
  lemma {:induction false} BetterIsBest(order: SortOrder, n: nat, updates: seq<Node>, u: Node)
    requires n > 0 && !Fold(order, n, Fresh, updates).Broken? && !Hits(Fold(order, n, Fresh, updates), u.key)
    requires u.value != 0.0
    requires forall k :: k in Levels(Fold(order, n, Fresh, updates)) && k != u.key ==> Before(order, u.key, k)
    ensures var after := Levels(Fold(order, n, Fresh, updates + [u]));
      && u.key in after && after[u.key] == u.value
      && forall k :: k in after && k != u.key ==> Before(order, u.key, k)
  {
    var d := Fold(order, n, Fresh, updates);
    assert (updates + [u])[..|updates|] == updates;
    FoldFits(order, n, updates);
    UpdateApplies(order, n, d, u);
    hide Fold, Updated;
  }

  /** For bids and asks in numbers: the bid side keeps the highest, the ask side the lowest keys pushed. */
  lemma {:induction false} PushesKeepExtremes(order: SortOrder, n: nat, pushes: seq<Node>, k: real, j: real)
    requires n > 0 && k in Levels(PushAll(order, n, Fresh, pushes))
    requires j in FirstOf(Effective(pushes)) && j !in Levels(PushAll(order, n, Fresh, pushes))
    ensures if order == Descending then k > j else k < j
  {
    hide PushAll, Effective, FirstOf;
    PushesKeepTheBest(order, n, pushes);
  }
}
