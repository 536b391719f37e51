/** The object pool: chunks of slots, each four times as large as the one before, and a stack of free slots. */
module ObjectPools {

  const DEFAULT_CHUNK_SIZE: nat := 10
  const GROWTH_STRATEGY: nat := 4

  /** A place for one object: which chunk, and where in it. */
  datatype Slot = Slot(chunk: nat, offset: nat)

  function Power(b: nat, k: nat): nat {
    if k == 0 then 1 else b * Power(b, k - 1)
  }

  function ChunkSize(chunk: nat): nat {
    DEFAULT_CHUNK_SIZE * Power(GROWTH_STRATEGY, chunk)
  }

  predicate IsSlot(slot: Slot, chunks: nat) {
    slot.chunk < chunks && slot.offset < ChunkSize(slot.chunk)
  }

  predicate NoDuplicates(s: seq<Slot>) {
    forall i, j :: 0 <= i < j < |s| ==> s[i] != s[j]
  }

  /** `k` chunks together hold 10 (4^k - 1) / 3 slots. */
  predicate CapacityOf(capacity: nat, chunks: nat) {
    3 * capacity == DEFAULT_CHUNK_SIZE * (Power(GROWTH_STRATEGY, chunks) - 1)
  }

  class ObjectPool {
    var pool: seq<nat>          // the chunks, by size
    var available: seq<Slot>    // free slots, taken from the back
    var newBlockSize: nat
    var capacity: nat

    /** The slots that are handed out, and how many have been out at once at most. */
    ghost var live: set<Slot>
    ghost var peak: nat

    /** A second chunk is there exactly if more than the first one's objects were out at once. */
    ghost predicate Valid()
      reads this
    {
      && Partitioned()
      && |live| <= peak
      && (|pool| == 0 <==> peak == 0)
      && (|pool| <= 1 <==> peak <= DEFAULT_CHUNK_SIZE)
    }

    /** Free and handed-out slots together are all slots, each exactly once. */
    ghost predicate Partitioned()
      reads this
    {
      && newBlockSize == ChunkSize(|pool|)
      && (forall i :: 0 <= i < |pool| ==> pool[i] == ChunkSize(i))
      && CapacityOf(capacity, |pool|)
      && NoDuplicates(available)
      && (forall slot :: slot in available ==> slot !in live)
      && (forall slot :: (slot in available || slot in live) <==> IsSlot(slot, |pool|))
      && |available| + |live| == capacity
    }

    constructor ()
      ensures Valid() && live == {} && pool == [] && capacity == 0 && peak == 0
    {
      pool, available, newBlockSize, capacity, live, peak := [], [], DEFAULT_CHUNK_SIZE, 0, {}, 0;
    }

    /** Adds a chunk; all its slots, in order, become the free ones. Fits only because none was free. */
    method AddChunk()
      requires Partitioned() && available == []
      modifies `pool, `available, `newBlockSize, `capacity
      ensures Partitioned() && |pool| == old(|pool|) + 1 && available != []
    {
      hide Power;
      ghost var chunks := |pool|;
      NextPower(chunks);
      var n, chunk := newBlockSize, |pool|;
      pool := pool + [n];
      available := seq(n, i requires 0 <= i < n => Slot(chunk, i));
      capacity := capacity + newBlockSize;
      newBlockSize := newBlockSize * GROWTH_STRATEGY;
      assert forall i :: 0 <= i < |available| ==> available[i] == Slot(chunks, i);
    }

    /** Hands out a free slot, growing the pool if there is none. */
    method AcquireObject() returns (slot: Slot)
      requires Valid()
      modifies this
      ensures Valid() && slot !in old(live) && live == old(live) + {slot}
      ensures peak == Max(old(peak), |live|)
      ensures |pool| == old(|pool|) + (if old(available) == [] then 1 else 0)
      ensures old(available) != [] ==> slot == old(available)[|old(available)| - 1] && capacity == old(capacity)
    {
      hide Power, ChunkSize, CapacityOf, IsSlot;
      SmallCapacities(capacity, |pool|);
      if available == [] {
        AddChunk();
      }
      slot := available[|available| - 1];
      ghost var before := available;
      available := available[..|available| - 1];
      live := live + {slot};
      peak := Max(peak, |live|);
      assert forall other :: other in before <==> other in available || other == slot;
    }

    /** Takes a slot back; it is the next one to be handed out. */
    method Release(slot: Slot)
      requires Valid() && slot in live
      modifies this`available, this`live
      ensures Valid() && live == old(live) - {slot} && available == old(available) + [slot]
      ensures peak == old(peak)
    {
      hide Power, ChunkSize, CapacityOf, IsSlot;
      available := available + [slot];
      live := live - {slot};
    }

    /** The destructor's assertion: 10 (2^k - 1) free slots for k chunks. */
    predicate DestructorAssertion()
      reads this
    {
      |available| == DEFAULT_CHUNK_SIZE * (Power(2, |pool|) - 1)
    }

    /** With everything returned it holds exactly as long as the pool never grew past its first chunk,
        which is as long as never more than its objects were out at once. */
    lemma {:induction false} AssertionHoldsUpToOneChunk()
      requires Valid() && live == {}
      ensures DestructorAssertion() <==> |pool| <= 1
      ensures DestructorAssertion() <==> peak <= DEFAULT_CHUNK_SIZE
    {
      CapacityOutgrows(|pool|);
    }
  }

  lemma {:induction false} NextPower(chunks: nat)
    ensures ChunkSize(chunks + 1) == ChunkSize(chunks) * GROWTH_STRATEGY && ChunkSize(chunks) >= DEFAULT_CHUNK_SIZE
    ensures Power(GROWTH_STRATEGY, chunks + 1) == GROWTH_STRATEGY * Power(GROWTH_STRATEGY, chunks)
  {
    if chunks > 0 {
      NextPower(chunks - 1);
    }
  }

  lemma {:induction false} CapacityOutgrows(chunks: nat)
    ensures Power(4, chunks) - 1 == 3 * (Power(2, chunks) - 1) <==> chunks <= 1
    ensures Power(4, chunks) - 1 >= 3 * (Power(2, chunks) - 1) && Power(2, chunks) >= 1
  {
    if chunks > 1 {
      CapacityOutgrows(chunks - 1);
    }
  }

  lemma {:induction false} SmallCapacities(capacity: nat, chunks: nat)
    requires CapacityOf(capacity, chunks)
    ensures chunks == 0 ==> capacity == 0
    ensures chunks == 1 ==> capacity == DEFAULT_CHUNK_SIZE
  {
    assert Power(4, 1) == 4 * Power(4, 0);
  }

  function Max(a: nat, b: nat): nat {
    if a < b then b else a
  }

  // ----- Runs -----

  /** Take an object, or give back the one at this place among those that are out, oldest first. */
  datatype Use = Take | GiveBack(place: nat)

  /** How many are out after the uses, and how many were at most. */
  function Out(uses: seq<Use>): int {
    if uses == [] then 0 else Out(uses[..|uses| - 1]) + if uses[|uses| - 1].Take? then 1 else -1
  }

  function Peak(uses: seq<Use>): nat {
    if uses == [] then 0
    else
      var before := Peak(uses[..|uses| - 1]);
      if Out(uses) > before then Out(uses) else before
  }

  /** Only what is out is given back. */
  ghost predicate Possible(uses: seq<Use>) {
    forall i :: 0 <= i < |uses| && uses[i].GiveBack? ==> uses[i].place < Out(uses[..i])
  }

  lemma {:induction false} UsesNext(uses: seq<Use>, i: nat)
    requires i < |uses|
    ensures Out(uses[..i + 1]) == Out(uses[..i]) + if uses[i].Take? then 1 else -1
    ensures Peak(uses[..i + 1])
         == if Out(uses[..i + 1]) > Peak(uses[..i]) then Out(uses[..i + 1]) else Peak(uses[..i])
  {
    assert uses[..i + 1][..i] == uses[..i];
  }

  /** A new pool after any uses has at most one chunk exactly if never more than ten objects were out at
      once; and if all are returned, exactly then its destructor's assertion holds. */
  method UsePool(uses: seq<Use>) returns (pool: ObjectPool)
    requires Possible(uses)
    ensures fresh(pool) && pool.Valid() && |pool.live| == Out(uses)
    ensures |pool.pool| <= 1 <==> Peak(uses) <= DEFAULT_CHUNK_SIZE
    ensures Out(uses) == 0 ==> (pool.DestructorAssertion() <==> Peak(uses) <= DEFAULT_CHUNK_SIZE)
  {
    hide Out, Peak, ObjectPool.Partitioned, ObjectPool.DestructorAssertion;
    pool := new ObjectPool();
    UsesNone(uses);
    var out: seq<Slot>, i := [], 0;
    while i < |uses|
      invariant 0 <= i <= |uses|
      invariant fresh(pool) && pool.Valid() && pool.peak == Peak(uses[..i])
      invariant AreLive(out, pool.live) && |pool.live| == Out(uses[..i]) <= Peak(uses[..i])
    {
      UsesNext(uses, i);
      LiveCount(out, pool.live);
      out := UseOnce(pool, out, uses[i]);
      i := i + 1;
    }
    assert uses[..i] == uses;
    if pool.live == {} {
      pool.AssertionHoldsUpToOneChunk();
    }
  }

  /** `out` lists what is handed out. */
  ghost predicate AreLive(out: seq<Slot>, live: set<Slot>) {
    NoDuplicates(out) && forall slot :: slot in out <==> slot in live
  }

  lemma {:induction false} LiveCount(out: seq<Slot>, live: set<Slot>)
    requires AreLive(out, live)
    ensures |out| == |live|
  {
    if out == [] {
      assert live == {};
    } else {
      var n := |out| - 1;
      LeavesOne(out, n);
      assert out[..n] + out[n + 1..] == out[..n];
      LiveCount(out[..n], live - {out[n]});
    }
  }

  method UseOnce(pool: ObjectPool, out: seq<Slot>, use: Use) returns (now: seq<Slot>)
    requires pool.Valid() && AreLive(out, pool.live)
    requires use.GiveBack? ==> use.place < |out|
    modifies pool
    ensures pool.Valid() && AreLive(now, pool.live)
    ensures |pool.live| == old(|pool.live|) + if use.Take? then 1 else -1
    ensures pool.peak == Max(old(pool.peak), |pool.live|)
  {
    hide ObjectPool.Partitioned;
    match use
    case Take =>
      var slot := pool.AcquireObject();
      now := out + [slot];
    case GiveBack(place) =>
      pool.Release(out[place]);
      LeavesOne(out, place);
      now := out[..place] + out[place + 1..];
  }

  lemma {:induction false} UsesNone(uses: seq<Use>)
    ensures Out(uses[..0]) == 0 && Peak(uses[..0]) == 0
  {
  }

  lemma {:induction false} LeavesOne(out: seq<Slot>, place: nat)
    requires place < |out| && NoDuplicates(out)
    ensures var rest := out[..place] + out[place + 1..];
      NoDuplicates(rest) && forall slot :: slot in rest <==> slot in out && slot != out[place]
  {
    var rest := out[..place] + out[place + 1..];
    forall j | 0 <= j < |rest| ensures rest[j] == out[if j < place then j else j + 1] {}
    forall slot | slot in out && slot != out[place] ensures slot in rest {
      var j :| 0 <= j < |out| && out[j] == slot;
      assert rest[if j < place then j else j - 1] == slot;
    }
  }

  /** The failing case: eleven objects at once, all returned. */
  method AssertionFailsAtTwoChunks() returns (pool: ObjectPool)
    ensures fresh(pool) && pool.Valid() && pool.live == {} && |pool.pool| == 2 && !pool.DestructorAssertion()
  {
    hide IsSlot, ChunkSize;
    pool := new ObjectPool();
    var slots: seq<Slot> := [];
    while |slots| < 11
      invariant fresh(pool) && pool.Valid() && |slots| <= 11 && |pool.live| == |slots|
      invariant forall slot :: slot in pool.live <==> slot in slots
      invariant NoDuplicates(slots)
      invariant |pool.pool| == (if slots == [] then 0 else if |slots| <= 10 then 1 else 2)
    {
      FirstCapacities();
      var slot := pool.AcquireObject();
      slots := slots + [slot];
    }
    while slots != []
      invariant fresh(pool) && pool.Valid() && |pool.pool| == 2 && |pool.live| == |slots|
      invariant forall slot :: slot in pool.live <==> slot in slots
      invariant NoDuplicates(slots)
      decreases |slots|
    {
      var last := slots[|slots| - 1];
      pool.Release(last);
      slots := slots[..|slots| - 1];
    }
    pool.AssertionHoldsUpToOneChunk();
  }

  lemma {:induction false} FirstCapacities()
    ensures forall c: nat :: CapacityOf(c, 0) <==> c == 0
    ensures forall c: nat :: CapacityOf(c, 1) <==> c == 10
    ensures forall c: nat :: CapacityOf(c, 2) <==> c == 50
  {
    assert Power(4, 0) == 1 && Power(4, 1) == 4 && Power(4, 2) == 16;
  }
}
