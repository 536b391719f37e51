/** The ring that overwrites its oldest element when full, with a flag to tell full from empty. */
module OverwritingRing {

  import opened Bits

  // ----- The queue it stands for -----

  datatype Op<T> = Put(value: T) | Get

  /** Contents, and everything that ever left the front, oldest first: fetched or overwritten. */
  datatype Queue<T> = Queue(contents: seq<T>, gone: seq<Left<T>>)

  datatype Left<T> = Fetched(value: T) | Overwritten(value: T)

  function Offered<T>(capacity: nat, q: seq<T>, value: T): seq<T>
    requires capacity > 0
  {
    (if |q| == capacity then q[1..] else q) + [value]
  }

  function Apply<T>(capacity: nat, q: Queue<T>, op: Op<T>): Queue<T>
    requires capacity > 0
  {
    match op
    case Put(v) =>
      Queue(Offered(capacity, q.contents, v),
            q.gone + if |q.contents| == capacity then [Overwritten(q.contents[0])] else [])
    case Get =>
      if q.contents == [] then q else Queue(q.contents[1..], q.gone + [Fetched(q.contents[0])])
  }

  function ApplyAll<T>(capacity: nat, ops: seq<Op<T>>): Queue<T>
    requires capacity > 0
  {
    if ops == [] then Queue([], [])
    else Apply(capacity, ApplyAll(capacity, ops[..|ops| - 1]), ops[|ops| - 1])
  }

  function PutValues<T>(ops: seq<Op<T>>): seq<T> {
    if ops == [] then []
    else
      var last := ops[|ops| - 1];
      PutValues(ops[..|ops| - 1]) + if last.Put? then [last.value] else []
  }

  function Values<T>(gone: seq<Left<T>>): seq<T> {
    if gone == [] then [] else Values(gone[..|gone| - 1]) + [gone[|gone| - 1].value]
  }

  lemma {:induction false} ValuesNext<T>(gone: seq<Left<T>>, last: Left<T>)
    ensures Values(gone + [last]) == Values(gone) + [last.value]
  {
    assert (gone + [last])[..|gone|] == gone;
  }

  lemma {:induction false} ApplyKeepsOrder<T>(capacity: nat, q: Queue<T>, op: Op<T>)
    requires |q.contents| <= capacity && capacity > 0
    ensures var r := Apply(capacity, q, op);
      && |r.contents| <= capacity
      && Values(r.gone) + r.contents == Values(q.gone) + q.contents + if op.Put? then [op.value] else []
  {
    hide Values;
    assert q.gone + [] == q.gone;
    if q.contents != [] {
      var first := q.contents[0];
      assert q.contents == [first] + q.contents[1..];
      ValuesNext(q.gone, Fetched(first));
      ValuesNext(q.gone, Overwritten(first));
    }
  }

  /** Nothing is lost, repeated or reordered: what left, then what is still there, is what was put. */
  lemma {:induction false} EveryPutLeavesOnceInOrder<T>(capacity: nat, ops: seq<Op<T>>)
    requires capacity > 0
    ensures var q := ApplyAll(capacity, ops); Values(q.gone) + q.contents == PutValues(ops) && |q.contents| <= capacity
  {
    if ops != [] {
      var before, op := ops[..|ops| - 1], ops[|ops| - 1];
      EveryPutLeavesOnceInOrder(capacity, before);
      ApplyKeepsOrder(capacity, ApplyAll(capacity, before), op);
    }
  }

  /** So the contents are always the last values put, and with no gets as many as fit. */
  lemma {:induction false} ContentsAreLatest<T>(capacity: nat, ops: seq<Op<T>>)
    requires capacity > 0
    ensures var q, puts := ApplyAll(capacity, ops), PutValues(ops);
      && |q.contents| <= |puts| && q.contents == puts[|puts| - |q.contents|..]
      && ((forall i :: 0 <= i < |ops| ==> ops[i].Put?) ==>
            |q.contents| == if |puts| < capacity then |puts| else capacity)
  {
    EveryPutLeavesOnceInOrder(capacity, ops);
    if forall i :: 0 <= i < |ops| ==> ops[i].Put? {
      OnlyPutsFill(capacity, ops);
    }
  }

  lemma {:induction false} OnlyPutsFill<T>(capacity: nat, ops: seq<Op<T>>)
    requires capacity > 0 && forall i :: 0 <= i < |ops| ==> ops[i].Put?
    ensures |PutValues(ops)| == |ops|
    ensures |ApplyAll(capacity, ops).contents| == if |ops| < capacity then |ops| else capacity
  {
    if ops != [] {
      OnlyPutsFill(capacity, ops[..|ops| - 1]);
    }
  }

  // ----- The ring -----

  class RingBuffer<T(0)> {
    const capacity: nat
    ghost const exponent: nat
    const buffer: array<T>
    var idxWrite: nat
    var idxRead: nat
    var full: bool

    /** How many elements lie between the indices; the flag decides when they meet. */
    ghost function Length(): nat
      reads this
      requires capacity > 0 && idxRead < capacity && idxWrite < capacity
    {
      if full then capacity
      else if idxRead <= idxWrite then idxWrite - idxRead
      else capacity - idxRead + idxWrite
    }

    ghost predicate Valid()
      reads this
    {
      && capacity == Pow2(exponent) && buffer.Length == capacity
      && idxRead < capacity && idxWrite < capacity
      && (full ==> idxWrite == idxRead)
    }

    /** The elements, read from `idxRead` on. */
    ghost function Contents(): (q: seq<T>)
      reads this, buffer
      requires Valid()
      ensures |q| == Length() <= capacity
    {
      Window(buffer[..], idxRead, Length())
    }

    constructor (ghost k: nat, capacity: nat)
      requires capacity == Pow2(k)
      ensures Valid() && Contents() == [] && this.capacity == capacity && fresh(buffer)
    {
      this.capacity, exponent := capacity, k;
      buffer := new T[capacity];
      idxWrite, idxRead, full := 0, 0, false;
    }

    method Put(value: T)
      requires Valid()
      modifies this`idxRead, this`idxWrite, this`full, buffer
      ensures Valid() && Contents() == Offered(capacity, old(Contents()), value)
    {
      hide Pow2, FastModulo, Window, Offered;
      WrapsRound(idxRead, exponent);
      WrapsRound(idxWrite, exponent);
      PutInWindow(buffer[..], idxRead, Length(), idxWrite, value);
      ghost var ring := buffer[..];
      buffer[idxWrite] := value;
      assert buffer[..] == ring[idxWrite := value];
      if full {
        idxRead := FastModulo(idxRead + 1, capacity);
      }
      idxWrite := FastModulo(idxWrite + 1, capacity);
      full := idxWrite == idxRead;
    }

    /** Fetches the oldest element; if there is none the caller's variable keeps its value. */
    method Get(before: T) returns (ok: bool, value: T)
      requires Valid()
      modifies this`idxRead, this`full
      ensures Valid() && ok == (old(Contents()) != [])
      ensures ok ==> value == old(Contents())[0] && Contents() == old(Contents())[1..]
      ensures !ok ==> value == before && Contents() == []
    {
      hide Pow2, FastModulo;
      WrapsRound(idxRead, exponent);
      if IsEmpty() {
        return false, before;
      }
      value := buffer[idxRead];
      full := false;
      idxRead := FastModulo(idxRead + 1, capacity);
      return true, value;
    }

    /** The flag and the indices tell empty from full exactly. */
    predicate IsEmpty()
      reads this
      requires Valid()
      ensures IsEmpty() <==> Contents() == []
      ensures full <==> |Contents()| == capacity
    {
      !full && idxWrite == idxRead
    }
  }

  /** `n` elements of a ring from `start` on. */
  function Window<T>(ring: seq<T>, start: nat, n: nat): (q: seq<T>)
    requires start < |ring| && n <= |ring|
    ensures |q| == n
  {
    seq(n, i requires 0 <= i < n => ring[if start + i < |ring| then start + i else start + i - |ring|])
  }

  /** The slot behind the window takes the new element; a full window moves on by one. */
  lemma {:induction false} PutInWindow<T>(ring: seq<T>, start: nat, n: nat, behind: nat, value: T)
    requires start < |ring| && n <= |ring|
    requires behind == if start + n < |ring| then start + n else start + n - |ring|
    ensures var next := if start + 1 == |ring| then 0 else start + 1;
      Offered(|ring|, Window(ring, start, n), value)
      == if n == |ring| then Window(ring[behind := value], next, n) else Window(ring[behind := value], start, n + 1)
  {
    var before, after := Window(ring, start, n), ring[behind := value];
    if n == |ring| {
      var now := Window(after, if start + 1 == |ring| then 0 else start + 1, n);
      forall i | 0 <= i < n - 1 ensures now[i] == before[1..][i] {}
      assert now[n - 1] == value && behind == start;
    } else {
      var now := Window(after, start, n + 1);
      forall i | 0 <= i < n ensures now[i] == before[i] {}
      assert now[n] == value;
    }
  }

  /** Masking steps an index to the next slot, from the last one back to 0. */
  lemma {:induction false} WrapsRound(i: nat, k: nat)
    requires i < Pow2(k)
    ensures FastModulo(i + 1, Pow2(k)) == if i + 1 == Pow2(k) then 0 else i + 1
  {
    hide Pow2, FastModulo;
    var d := Pow2(k);
    FastModuloIsMod(i + 1, k);
    if i + 1 < d {
      UniqueRemainder(i + 1, d, 0, i + 1);
    } else {
      UniqueRemainder(i + 1, d, 1, 0);
    }
  }
}
