/** The bounded price-to-quantity map a flat map stands for, and streams of updates to it. */
module DepthValues {

  datatype SortOrder = Ascending | Descending

  datatype Node = Node(key: real, value: real)

  /** The order test of the flat map: `a` is no worse than `b`. */
  predicate Compare(order: SortOrder, a: real, b: real) {
    if order == Descending then a >= b else a <= b
  }

  /** `a` ranks strictly before `b`. */
  predicate Before(order: SortOrder, a: real, b: real) {
    if order == Descending then a > b else a < b
  }

  predicate Sorted(order: SortOrder, s: seq<Node>) {
    forall i, j :: 0 <= i < j < |s| ==> Before(order, s[i].key, s[j].key)
  }

  // ----- Sorted rows and the maps they stand for -----

  function MapOf(s: seq<Node>): map<real, real> {
    if s == [] then map[] else MapOf(s[..|s| - 1])[s[|s| - 1].key := s[|s| - 1].value]
  }

  lemma {:induction false} MapOfKeys(s: seq<Node>)
    ensures forall k :: k in MapOf(s) <==> exists i :: 0 <= i < |s| && s[i].key == k
  {
    if s != [] {
      var n := |s| - 1;
      MapOfKeys(s[..n]);
      forall k | k in MapOf(s)
        ensures exists i :: 0 <= i < |s| && s[i].key == k
      {
        if k != s[n].key {
          assert k in MapOf(s[..n]);
          var i :| 0 <= i < |s[..n]| && s[..n][i].key == k;
          assert s[i].key == k;
        }
      }
      forall i | 0 <= i < |s|
        ensures s[i].key in MapOf(s)
      {
        assert i < n ==> s[i] == s[..n][i];
      }
    }
  }

  lemma {:induction false} LastIsNew(order: SortOrder, s: seq<Node>)
    requires Sorted(order, s) && s != []
    ensures s[|s| - 1].key !in MapOf(s[..|s| - 1])
  {
    hide MapOf;
    MapOfKeys(s[..|s| - 1]);
  }

  lemma {:induction false} MapOfValues(order: SortOrder, s: seq<Node>)
    requires Sorted(order, s)
    ensures forall i :: 0 <= i < |s| ==> s[i].key in MapOf(s) && MapOf(s)[s[i].key] == s[i].value
    ensures |MapOf(s)| == |s|
  {
    if s != [] {
      var n := |s| - 1;
      var front := s[..n];
      MapOfValues(order, front);
      LastIsNew(order, s);
      assert MapOf(s) == MapOf(front)[s[n].key := s[n].value];
      assert MapOf(s).Keys == MapOf(front).Keys + {s[n].key};
      hide MapOf;
      forall i | 0 <= i < n
        ensures s[i].key in MapOf(s) && MapOf(s)[s[i].key] == s[i].value
      {
        assert s[i] == front[i];
      }
    }
  }

  lemma {:induction false} MapOfEntries(order: SortOrder, s: seq<Node>)
    requires Sorted(order, s)
    ensures forall k :: k in MapOf(s) <==> exists i :: 0 <= i < |s| && s[i].key == k
    ensures forall i :: 0 <= i < |s| ==> s[i].key in MapOf(s) && MapOf(s)[s[i].key] == s[i].value
    ensures |MapOf(s)| == |s|
  {
    hide MapOf, Sorted;
    MapOfKeys(s);
    MapOfValues(order, s);
  }

  /** A map has only one sorted listing. */
  lemma {:induction false} OneListing(order: SortOrder, s: seq<Node>, t: seq<Node>)
    requires Sorted(order, s) && Sorted(order, t) && MapOf(s) == MapOf(t)
    ensures s == t
  {
    MapOfValues(order, s);
    MapOfValues(order, t);
    if s != [] {
      hide MapOf, Before;
      var n := |s| - 1;
      LastIsWorst(order, s);
      LastIsWorst(order, t);
      DropLast(order, s);
      DropLast(order, t);
      OneListing(order, s[..n], t[..n]);
    }
  }

  lemma {:induction false} InsertedAt(s: seq<Node>, i: nat, n: Node)
    requires i <= |s|
    ensures var t := s[..i] + [n] + s[i..];
      && |t| == |s| + 1 && t[i] == n
      && (forall j :: 0 <= j < i ==> t[j] == s[j])
      && (forall j :: i < j < |t| ==> t[j] == s[j - 1])
  {
  }

  lemma {:induction false} InsertedStaysSorted(order: SortOrder, s: seq<Node>, i: nat, n: Node)
    requires Sorted(order, s) && i <= |s|
    requires forall j :: 0 <= j < i ==> Before(order, s[j].key, n.key)
    requires forall j :: i <= j < |s| ==> Before(order, n.key, s[j].key)
    ensures Sorted(order, s[..i] + [n] + s[i..])
  {
    hide Before;
    InsertedAt(s, i, n);
  }

  lemma {:induction false} KeyIsNew(order: SortOrder, s: seq<Node>, i: nat, n: Node)
    requires i <= |s|
    requires forall j :: 0 <= j < i ==> Before(order, s[j].key, n.key)
    requires forall j :: i <= j < |s| ==> Before(order, n.key, s[j].key)
    ensures n.key !in MapOf(s)
  {
    hide MapOf;
    MapOfKeys(s);
  }

  /** Inserting an entry with a new key adds just that key. */
  lemma {:induction false} InsertedKeys(s: seq<Node>, i: nat, n: Node)
    requires i <= |s|
    ensures MapOf(s[..i] + [n] + s[i..]).Keys == MapOf(s).Keys + {n.key}
  {
    hide MapOf;
    var t := s[..i] + [n] + s[i..];
    InsertedAt(s, i, n);
    MapOfKeys(s);
    MapOfKeys(t);
    forall k | k in MapOf(s) ensures k in MapOf(t) {
      var j :| 0 <= j < |s| && s[j].key == k;
      assert t[if j < i then j else j + 1].key == k;
    }
    forall k | k in MapOf(t) ensures k == n.key || k in MapOf(s) {
      var j :| 0 <= j < |t| && t[j].key == k;
      assert j != i ==> t[j] == s[if j < i then j else j - 1];
    }
  }

  lemma {:induction false} InsertedValues(order: SortOrder, s: seq<Node>, i: nat, n: Node, k: real)
    requires Sorted(order, s) && i <= |s| && Sorted(order, s[..i] + [n] + s[i..]) && k in MapOf(s)
    ensures var t := s[..i] + [n] + s[i..]; k in MapOf(t) && MapOf(t)[k] == MapOf(s)[k]
  {
    hide MapOf, Sorted;
    var t := s[..i] + [n] + s[i..];
    InsertedAt(s, i, n);
    MapOfKeys(s);
    MapOfValues(order, s);
    MapOfValues(order, t);
    var j :| 0 <= j < |s| && s[j].key == k;
    assert t[if j < i then j else j + 1] == s[j];
  }

  lemma {:induction false} Inserting(order: SortOrder, s: seq<Node>, i: nat, n: Node)
    requires Sorted(order, s) && i <= |s|
    requires forall j :: 0 <= j < i ==> Before(order, s[j].key, n.key)
    requires forall j :: i <= j < |s| ==> Before(order, n.key, s[j].key)
    ensures Sorted(order, s[..i] + [n] + s[i..])
    ensures n.key !in MapOf(s)
    ensures MapOf(s[..i] + [n] + s[i..]) == MapOf(s)[n.key := n.value]
  {
    InsertedStaysSorted(order, s, i, n);
    KeyIsNew(order, s, i, n);
    hide MapOf, Sorted, Before;
    var t := s[..i] + [n] + s[i..];
    InsertedKeys(s, i, n);
    InsertedAt(s, i, n);
    MapOfValues(order, t);
    assert MapOf(t)[n.key] == n.value by { assert t[i] == n; }
    forall k | k in MapOf(s) ensures MapOf(t)[k] == MapOf(s)[k] {
      InsertedValues(order, s, i, n, k);
    }
    assert MapOf(t).Keys == MapOf(s)[n.key := n.value].Keys;
  }

  lemma {:induction false} Erasing(order: SortOrder, s: seq<Node>, i: nat)
    requires Sorted(order, s) && i < |s|
    ensures Sorted(order, s[..i] + s[i + 1..])
    ensures MapOf(s[..i] + s[i + 1..]) == MapOf(s) - {s[i].key}
  {
    hide MapOf;
    var t := s[..i] + s[i + 1..];
    assert s == t[..i] + [s[i]] + t[i..];
    assert forall j :: 0 <= j < |t| ==> t[j] == s[if j < i then j else j + 1];
    Inserting(order, t, i, s[i]);
  }

  lemma {:induction false} DropLast(order: SortOrder, s: seq<Node>)
    requires Sorted(order, s) && s != []
    ensures Sorted(order, s[..|s| - 1])
    ensures MapOf(s[..|s| - 1]) == MapOf(s) - {s[|s| - 1].key}
  {
    var n := |s| - 1;
    assert s[..n] + s[n + 1..] == s[..n];
    Erasing(order, s, n);
  }

  lemma {:induction false} Revaluing(order: SortOrder, s: seq<Node>, i: nat, value: real)
    requires Sorted(order, s) && i < |s|
    ensures Sorted(order, s[i := Node(s[i].key, value)])
    ensures MapOf(s[i := Node(s[i].key, value)]) == MapOf(s)[s[i].key := value]
  {
    hide MapOf;
    var t := s[i := Node(s[i].key, value)];
    assert t[..i] + t[i + 1..] == s[..i] + s[i + 1..];
    Erasing(order, s, i);
    Erasing(order, t, i);
    MapOfEntries(order, t);
    MapOfEntries(order, s);
    assert MapOf(t) - {s[i].key} == MapOf(s) - {s[i].key};
    assert t[i] == Node(s[i].key, value);
    assert MapOf(t).Keys == (MapOf(t) - {s[i].key}).Keys + {s[i].key};
    assert MapOf(s).Keys == (MapOf(s) - {s[i].key}).Keys + {s[i].key};
    assert forall k :: k in MapOf(t) && k != s[i].key ==> MapOf(t)[k] == (MapOf(t) - {s[i].key})[k];
    assert forall k :: k in MapOf(s) && k != s[i].key ==> MapOf(s)[k] == (MapOf(s) - {s[i].key})[k];
  }

  // ----- The bounded map -----

  ghost predicate IsWorst(order: SortOrder, m: map<real, real>, k: real) {
    k in m && forall j :: j in m && j != k ==> Before(order, j, k)
  }

  lemma {:induction false} LastIsWorst(order: SortOrder, s: seq<Node>)
    requires Sorted(order, s) && s != []
    ensures IsWorst(order, MapOf(s), s[|s| - 1].key)
    ensures forall k :: IsWorst(order, MapOf(s), k) ==> k == s[|s| - 1].key
  {
    MapOfEntries(order, s);
  }

  lemma {:induction false} WorstExists(order: SortOrder, m: map<real, real>)
    requires m != map[]
    ensures exists k :: IsWorst(order, m, k)
    decreases |m|
  {
    assert (forall k :: k !in m) ==> m == map[];
    var k :| k in m;
    var rest := m - {k};
    if rest == map[] {
      assert forall j :: j in m && j != k ==> j in rest;
      assert IsWorst(order, m, k);
    } else {
      WorstExists(order, rest);
      var w :| IsWorst(order, rest, w);
      var worst := if Before(order, w, k) then k else w;
      assert forall j :: j in m && j != k ==> j in rest;
      assert IsWorst(order, m, worst);
    }
  }

  ghost function Worst(order: SortOrder, m: map<real, real>): (k: real)
    requires m != map[]
    ensures IsWorst(order, m, k)
  {
    WorstExists(order, m);
    var k :| IsWorst(order, m, k);
    k
  }

  function Emplace(m: map<real, real>, key: real, value: real): map<real, real> {
    if key in m then m else m[key := value]
  }

  /** Insert if absent, then drop the worst key if that makes one too many. */
  ghost function BoundedPush(order: SortOrder, capacity: nat, m: map<real, real>, key: real, value: real)
    : (r: map<real, real>)
    ensures |m| <= capacity ==> |r| <= capacity
  {
    var e := Emplace(m, key, value);
    if |e| == capacity + 1 then
      assert Worst(order, e) in e && (e - {Worst(order, e)}).Keys == e.Keys - {Worst(order, e)};
      e - {Worst(order, e)}
    else e
  }

  /** The row after inserting at `i`, cut to the capacity. */
  function InsertedRow(capacity: nat, s: seq<Node>, i: nat, n: Node): seq<Node>
    requires i <= |s| <= capacity
  {
    var t := s[..i] + [n] + s[i..];
    if |t| == capacity + 1 then t[..capacity] else t
  }

  /** Inserting a new key at its place and cutting is the bounded push. */
  lemma {:induction false} InsertedRowIsPush(order: SortOrder, capacity: nat, s: seq<Node>, i: nat, n: Node)
    requires Sorted(order, s) && i <= |s| <= capacity
    requires forall j :: 0 <= j < i ==> Before(order, s[j].key, n.key)
    requires forall j :: i <= j < |s| ==> Before(order, n.key, s[j].key)
    ensures Sorted(order, InsertedRow(capacity, s, i, n))
    ensures MapOf(InsertedRow(capacity, s, i, n)) == BoundedPush(order, capacity, MapOf(s), n.key, n.value)
  {
    hide MapOf, IsWorst, Before;
    var t := s[..i] + [n] + s[i..];
    Inserting(order, s, i, n);
    MapOfEntries(order, t);
    if |t| == capacity + 1 {
      LastIsWorst(order, t);
      DropLast(order, t);
      assert IsWorst(order, MapOf(t), Worst(order, MapOf(t)));
    }
  }

  /** A flat map as it looks to its callers. An empty one still remembers what slot 0 last held. */
  datatype Depth = Live(m: map<real, real>) | Idle(spare: Node) | Broken

  /** A push or erase on an empty map is mistaken for one on the leftover slot. */
  predicate Hits(d: Depth, key: real) {
    d.Idle? && d.spare.key == key
  }

  function Levels(d: Depth): map<real, real> {
    if d.Live? then d.m else map[]
  }

  /** Pushing: the new map, unless the leftover slot swallows the key. */
  ghost function Pushed(order: SortOrder, capacity: nat, d: Depth, key: real, value: real): Depth
    requires !d.Broken?
  {
    if Hits(d, key) then d else
    var m := BoundedPush(order, capacity, Levels(d), key, value);
    if m == map[] then d else Live(m)
  }

  /** Erasing: the new map, unless the leftover slot makes the size wrap below zero. */
  ghost function Erased(d: Depth, key: real): Depth
    requires !d.Broken?
  {
    if Hits(d, key) then Broken
    else if key !in Levels(d) then d
    else if d.m - {key} == map[] then Idle(Node(key, d.m[key]))
    else Live(d.m - {key})
  }

  /** One depth update: zero erases, anything else pushes and then overwrites the value. */
  ghost function Updated(order: SortOrder, capacity: nat, d: Depth, u: Node): Depth {
    if d.Broken? then Broken
    else if u.value == 0.0 then Erased(d, u.key)
    else if Hits(d, u.key) then Idle(u)
    else
      var p := Pushed(order, capacity, d, u.key, u.value);
      if u.key in Levels(p) then Live(Levels(p)[u.key := u.value]) else p
  }

  /** What an array shows whose used part is `s` and whose slot 0 is `first`. */
  function Shown(s: seq<Node>, first: Node): Depth {
    if s == [] then Idle(first) else Live(MapOf(s))
  }

  lemma {:induction false} ShownFits(order: SortOrder, s: seq<Node>, first: Node)
    requires Sorted(order, s)
    ensures |Levels(Shown(s, first))| == |s|
  {
    MapOfValues(order, s);
  }

  lemma {:induction false} PushOfNewKey(order: SortOrder, capacity: nat, s: seq<Node>, first: Node, i: nat, n: Node)
    requires Sorted(order, s) && i <= |s| <= capacity && capacity > 0
    requires forall j :: 0 <= j < i ==> Before(order, s[j].key, n.key)
    requires forall j :: i <= j < |s| ==> Before(order, n.key, s[j].key)
    requires s == [] ==> first.key != n.key
    ensures var row := InsertedRow(capacity, s, i, n);
      && Sorted(order, row)
      && Pushed(order, capacity, Shown(s, first), n.key, n.value) == Live(MapOf(row))
      && row != [] && (n.key in MapOf(row) <==> i < capacity)
  {
    var row := InsertedRow(capacity, s, i, n);
    InsertedRowIsPush(order, capacity, s, i, n);
    MapOfEntries(order, s);
    MapOfEntries(order, row);
    assert i < capacity ==> row[i] == n;
    assert i == capacity ==> row == s;
    assert MapOf(row) != map[];
  }

  lemma {:induction false} PushOfOldKey(order: SortOrder, capacity: nat, s: seq<Node>, first: Node, i: nat, value: real)
    requires Sorted(order, s) && i < |s| <= capacity
    ensures Pushed(order, capacity, Shown(s, first), s[i].key, value) == Shown(s, first)
    ensures s[i].key in Levels(Shown(s, first))
  {
    MapOfEntries(order, s);
  }

  lemma {:induction false} HitsShown(order: SortOrder, capacity: nat, first: Node, value: real)
    ensures Hits(Shown([], first), first.key)
    ensures Pushed(order, capacity, Shown([], first), first.key, value) == Shown([], first)
    ensures Erased(Shown([], first), first.key) == Broken
  {
  }

  lemma {:induction false} EraseOfKey(order: SortOrder, s: seq<Node>, first: Node, i: nat)
    requires Sorted(order, s) && i < |s| && (|s| == 1 ==> first == s[0])
    ensures Sorted(order, s[..i] + s[i + 1..])
    ensures Erased(Shown(s, first), s[i].key) == Shown(s[..i] + s[i + 1..], first)
    ensures s[i].key in Levels(Shown(s, first))
  {
    var t := s[..i] + s[i + 1..];
    MapOfEntries(order, s);
    Erasing(order, s, i);
    MapOfEntries(order, t);
    assert t == [] ==> MapOf(t) == map[];
  }

  lemma {:induction false} EraseOfNoKey(order: SortOrder, s: seq<Node>, first: Node, key: real)
    requires Sorted(order, s) && (forall i :: 0 <= i < |s| ==> s[i].key != key)
    requires s == [] ==> first.key != key
    ensures Erased(Shown(s, first), key) == Shown(s, first)
    ensures key !in Levels(Shown(s, first))
  {
    MapOfEntries(order, s);
  }

  lemma {:induction false} WriteOfValue(order: SortOrder, s: seq<Node>, first: Node, i: nat, value: real, second: Node)
    requires Sorted(order, s) && i < |s|
    ensures var t := s[i := Node(s[i].key, value)];
      Sorted(order, t) && Shown(t, second) == Live(Levels(Shown(s, first))[s[i].key := value])
  {
    Revaluing(order, s, i, value);
  }

  ghost function Fold(order: SortOrder, capacity: nat, d: Depth, updates: seq<Node>): Depth
  {
    if updates == [] then d
    else Updated(order, capacity, Fold(order, capacity, d, updates[..|updates| - 1]), updates[|updates| - 1])
  }

  /** A new map: slot 0 starts as zeroes. */
  const Fresh: Depth := Idle(Node(0.0, 0.0))
}
