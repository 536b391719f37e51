/** The growing byte buffer that the connector fills and the parser reads. */
module Buffers {

  import opened Words
  import opened Bits

  const TOP: nat := 0x8000_0000

  // ----- Rounding up to a power of two -----

  /** 32 less the number of leading zeroes of a 32-bit word. */
  function BitLength(n: nat): nat {
    if n == 0 then 0 else 1 + BitLength(n / 2)
  }

  /** 1 << (32 - countl_zero(value - 1)); the shift is defined from 1 to 2^31 only. */
  function RoundUpToPow2(value: nat): nat
    requires 1 <= value <= TOP
  {
    Pow2(BitLength(value - 1))
  }

  lemma {:induction false} BitLengthBounds(n: nat)
    ensures n < Pow2(BitLength(n))
    ensures n > 0 ==> BitLength(n) > 0 && Pow2(BitLength(n) - 1) <= n
  {
    if n > 1 {
      BitLengthBounds(n / 2);
    }
  }

  lemma {:induction false} Pow2Grows(j: nat, k: nat)
    requires j <= k
    ensures Pow2(j) <= Pow2(k)
  {
    if j < k {
      Pow2Grows(j, k - 1);
    }
  }

  /** Rounding gives the least power of two that is large enough. */
  lemma {:induction false} RoundUpIsLeast(value: nat)
    requires 1 <= value <= TOP
    ensures value <= RoundUpToPow2(value) < 2 * value
    ensures IsPowerOf2(RoundUpToPow2(value))
    ensures forall k: nat :: value <= Pow2(k) ==> RoundUpToPow2(value) <= Pow2(k)
  {
    var n := value - 1;
    BitLengthBounds(n);
    PowerHasOneBit(BitLength(n));
    forall k: nat | value <= Pow2(k)
      ensures RoundUpToPow2(value) <= Pow2(k)
    {
      if k < BitLength(n) {
        Pow2Grows(k, BitLength(n) - 1);
      } else {
        Pow2Grows(BitLength(n), k);
      }
    }
  }

  lemma {:induction false} TopIsPower()
    ensures Pow2(31) == TOP
  {
    assert Pow2(8) == 256;
    assert Pow2(16) == 65536;
    assert Pow2(24) == 0x100_0000;
  }

  lemma {:induction false} RoundUpFits(value: nat)
    requires 1 <= value <= TOP
    ensures RoundUpToPow2(value) <= TOP
  {
    TopIsPower();
    RoundUpIsLeast(value);
  }

  /** Asking for more than a power of two at least doubles it. */
  lemma {:induction false} RoundUpDoubles(capacity: nat, n: nat)
    requires IsPowerOf2(capacity) && n > 0 && capacity + n <= TOP
    ensures RoundUpToPow2(capacity + n) >= 2 * capacity
  {
    var k := OneBitIsPower(capacity);
    var m := BitLength(capacity + n - 1);
    RoundUpIsLeast(capacity + n);
    if m <= k {
      Pow2Grows(m, k);
    } else {
      Pow2Grows(k + 1, m);
    }
  }

  // ----- The buffer -----

  class Buffer {
    var capacity: Word32
    var size: Word32
    var data: array?<char>

    ghost predicate Valid()
      reads this
    {
      size <= capacity && capacity == if data == null then 0 else data.Length
    }

    /** What is stored. */
    ghost function Contents(): seq<char>
      reads this, data
      requires Valid()
    {
      if data == null then [] else data[..size]
    }

    /** What is stored, if the length is sound. */
    ghost function Stored(): Option<seq<char>>
      reads this, data
    {
      if Valid() then Some(Contents()) else None
    }

    constructor ()
      ensures Valid() && Contents() == [] && capacity == 0 && data == null
    {
      capacity, size, data := 0, 0, null;
    }

    /** Moves the stored bytes to a block of the rounded capacity, which may also be a smaller one. */
    method EnsureCapacity(newCapacity: nat)
      requires Valid() && 1 <= newCapacity <= TOP && size <= newCapacity
      modifies this
      ensures Valid() && Contents() == old(Contents()) && size == old(size)
      ensures capacity == RoundUpToPow2(newCapacity)
      ensures data != null && fresh(data)
    {
      RoundUpIsLeast(newCapacity);
      RoundUpFits(newCapacity);
      var rounded := RoundUpToPow2(newCapacity);
      var newData := new char[rounded];
      if data != null {
        forall i | 0 <= i < size {
          newData[i] := data[i];
        }
      }
      data, capacity := newData, rounded;
    }

    /** Makes room for `n` more bytes behind the stored ones and says where they go. */
    method Tail(n: Word32) returns (at: nat)
      requires Valid() && capacity + n <= TOP
      modifies this
      ensures Valid() && Contents() == old(Contents()) && size == old(size) && at == size
      ensures capacity - size >= n
      ensures capacity == if old(capacity - size >= n) then old(capacity) else RoundUpToPow2(old(capacity) + n)
      ensures old(capacity) != capacity && IsPowerOf2(old(capacity)) ==> capacity >= 2 * old(capacity)
      ensures data == old(data) || fresh(data)
    {
      hide RoundUpToPow2, IsPowerOf2;
      if capacity - size < n {
        RoundUpIsLeast(capacity + n);
        if IsPowerOf2(capacity) {
          RoundUpDoubles(capacity, n);
        }
        EnsureCapacity(capacity + n);
      }
      return size;
    }

    /** Counts `n` more bytes as stored; the 32-bit sum may wrap, and may exceed the capacity. */
    method IncrementLength(n: Word32)
      requires Valid()
      modifies this`size
      ensures size == (old(size) + n) % WORD32 && (Valid() <==> size <= capacity)
      ensures Valid() && old(size) <= size ==> Contents()[..old(size)] == old(Contents())
      ensures Valid() && size < old(size) ==> Contents() == old(Contents())[..size]
    {
      size := (size + n) % WORD32;
    }

    /** Copies bytes behind the stored ones, where there is room for them, and counts them in. */
    method Fill(bytes: seq<char>)
      requires Valid() && size + |bytes| <= capacity
      modifies this`size, data
      ensures Valid() && Contents() == old(Contents()) + bytes && size == old(size) + |bytes|
    {
      if data != null {
        ghost var block := data[..];
        forall i | 0 <= i < |bytes| {
          data[size + i] := bytes[i];
        }
        assert data[..size] == block[..size];
        assert data[size..size + |bytes|] == bytes;
        assert data[..size + |bytes|] == data[..size] + data[size..size + |bytes|];
      }
      IncrementLength(|bytes|);
    }

    method Append(bytes: seq<char>)
      requires Valid() && 1 <= size + |bytes| <= TOP
      modifies this, data
      ensures Valid() && Contents() == old(Contents()) + bytes
      ensures capacity == RoundUpToPow2(old(size) + |bytes|)
      ensures data != null && fresh(data)
    {
      RoundUpIsLeast(size + |bytes|);
      hide RoundUpToPow2;
      EnsureCapacity(size + |bytes|);
      Fill(bytes);
    }

    /** What a parser sees. */
    method Bytes() returns (bytes: seq<char>)
      requires Valid()
      ensures bytes == Contents()
    {
      bytes := if data == null then [] else data[..size];
    }

    method Clear()
      requires Valid()
      modifies this`size
      ensures Valid() && Contents() == []
    {
      size := 0;
    }
  }

  const RECV_BUFFER_SIZE: Word32 := 128

  /** What one `recv` does: it delivers bytes, none at the end of the stream, or fails with -1. */
  datatype Read = Bytes(bytes: seq<char>) | Failed

  /** A read that makes the loop go on. */
  predicate Full(read: Read) {
    read.Bytes? && |read.bytes| == RECV_BUFFER_SIZE
  }

  function Joined(received: seq<Read>): seq<char> {
    if received == [] then []
    else
      var last := received[|received| - 1];
      Joined(received[..|received| - 1]) + if last.Bytes? then last.bytes else []
  }

  lemma {:induction false} JoinedNone(received: seq<Read>)
    ensures Joined(received[..0]) == []
  {
  }

  lemma {:induction false} JoinedNext(received: seq<Read>, i: nat)
    requires i < |received|
    ensures Joined(received[..i + 1]) == Joined(received[..i]) + if received[i].Bytes? then received[i].bytes else []
  {
    assert received[..i + 1][..i] == received[..i];
  }

  lemma {:induction false} JoinedLength(received: seq<Read>, i: nat)
    requires i <= |received|
    ensures |Joined(received[..i])| <= |Joined(received)|
    decreases |received| - i
  {
    if i < |received| {
      JoinedNext(received, i);
      JoinedLength(received, i + 1);
    } else {
      assert received[..i] == received;
    }
  }

  /** What is stored after a read: a failure, counted as -1 more bytes, takes the last byte back and
      makes the length of an empty buffer wrap. */
  function AfterRead(stored: seq<char>, read: Read): Option<seq<char>> {
    match read
    case Bytes(bytes) => Some(stored + bytes)
    case Failed => if stored == [] then None else Some(stored[..|stored| - 1])
  }

  /** One round of the receive loop. */
  method ReceiveOnce(response: Buffer, read: Read) returns (bytes: int)
    requires response.Valid() && response.capacity + RECV_BUFFER_SIZE <= TOP
    requires read.Bytes? ==> |read.bytes| <= RECV_BUFFER_SIZE
    modifies response, response.data
    ensures bytes == if read.Bytes? then |read.bytes| else -1
    ensures response.data == old(response.data) || fresh(response.data)
    ensures response.capacity <= old(response.capacity)
         || response.capacity <= 2 * old(response.size) + 4 * RECV_BUFFER_SIZE
    ensures response.Stored() == AfterRead(old(response.Contents()), read)
    ensures read.Bytes? ==> response.Valid() && response.Contents() == old(response.Contents()) + read.bytes
    ensures read.Failed? && old(response.size) > 0 ==>
              response.Valid() && response.Contents() == old(response.Contents())[..old(response.size) - 1]
    ensures read.Failed? && old(response.size) == 0 ==> response.size == WORD32 - 1
    ensures response.Stored() == None ==> response.size == WORD32 - 1
  {
    hide RoundUpToPow2, IsPowerOf2;
    if response.capacity - response.size < RECV_BUFFER_SIZE {
      GrowthIsBounded(response.capacity, response.size);
    }
    var _ := response.Tail(RECV_BUFFER_SIZE);
    match read
    case Bytes(received) =>
      response.Fill(received);
      return |received|;
    case Failed =>
      response.IncrementLength(WORD32 - 1);
      return -1;
  }

  /** The receive loop: full reads are followed by another one, the first other read is the last. What
      was received is appended, byte for byte. */
  method GetData(response: Buffer, received: seq<Read>)
    requires response.Valid()
    requires received != [] && !Full(received[|received| - 1])
    requires forall i :: 0 <= i < |received| - 1 ==> Full(received[i])
    requires forall i :: 0 <= i < |received| && received[i].Bytes? ==> |received[i].bytes| <= RECV_BUFFER_SIZE
    requires response.capacity + 2 * (response.size + |Joined(received)|) + 5 * RECV_BUFFER_SIZE <= TOP
    modifies response, response.data
    ensures var k := |received| - 1;
      response.Stored() == AfterRead(old(response.Contents()) + Joined(received[..k]), received[k])
    ensures response.Stored() == None ==> response.size == WORD32 - 1
    ensures response.data == old(response.data) || fresh(response.data)
    ensures response.capacity <= old(response.capacity)
         || response.capacity <= 2 * (old(response.size) + |Joined(received)|) + 4 * RECV_BUFFER_SIZE
  {
    hide Joined, AfterRead;
    JoinedNone(received);
    ghost var start, room := response.Contents(), response.capacity;
    assert start + [] == start;
    var bytes: int, i := RECV_BUFFER_SIZE, 0;
    while bytes == RECV_BUFFER_SIZE
      invariant 0 <= i <= |received|
      invariant bytes == RECV_BUFFER_SIZE <==> i < |received|
      invariant response.data == old(response.data) || fresh(response.data)
      invariant i < |received| ==> response.Stored() == Some(start + Joined(received[..i]))
      invariant response.capacity <= room
             || response.capacity <= 2 * (|start| + |Joined(received)|) + 4 * RECV_BUFFER_SIZE
      invariant i == |received| ==>
        response.Stored() == AfterRead(start + Joined(received[..i - 1]), received[i - 1])
      invariant response.Stored() == None ==> response.size == WORD32 - 1
      decreases |received| - i
    {
      JoinedNext(received, i);
      JoinedLength(received, i);
      ghost var size := response.size;
      assert size == |start + Joined(received[..i])|;
      bytes := ReceiveOnce(response, received[i]);
      AfterFullRead(start, received, i);
      assert received[i].Bytes? ==> response.size == |start + Joined(received[..i + 1])| >= size;
      i := i + 1;
    }
  }

  /** What one lap of the connector is given: full reads, and one at the end that is not. */
  ghost predicate IsLap(lap: seq<Read>, limit: nat) {
    && lap != [] && !Full(lap[|lap| - 1])
    && (forall i :: 0 <= i < |lap| - 1 ==> Full(lap[i]))
    && (forall i :: 0 <= i < |lap| && lap[i].Bytes? ==> |lap[i].bytes| <= RECV_BUFFER_SIZE)
    && |Joined(lap)| <= limit
  }

  /** The message of a lap; a failed read takes its last byte. */
  function MessageOf(lap: seq<Read>): Option<seq<char>>
    requires lap != []
  {
    AfterRead(Joined(lap[..|lap| - 1]), lap[|lap| - 1])
  }

  lemma {:induction false} MessageIsJoined(lap: seq<Read>)
    requires lap != [] && lap[|lap| - 1].Bytes?
    ensures MessageOf(lap) == Some(Joined(lap))
  {
  }

  /** One recycled buffer, lap after lap: received into, parsed, cleared. Every lap shows its own message,
      with nothing of the laps before. */
  method RecycleBuffer(laps: seq<seq<Read>>, limit: nat) returns (parsed: seq<seq<char>>)
    requires forall l :: 0 <= l < |laps| ==> laps[l] != [] && IsLap(laps[l], limit) && MessageOf(laps[l]).Some?
    requires 4 * limit + 9 * RECV_BUFFER_SIZE <= TOP
    ensures |parsed| == |laps|
    ensures forall l :: 0 <= l < |laps| ==> Some(parsed[l]) == MessageOf(laps[l])
    ensures forall l :: 0 <= l < |laps| && laps[l][|laps[l]| - 1].Bytes? ==> parsed[l] == Joined(laps[l])
  {
    hide Joined, AfterRead, MessageOf;
    parsed := [];
    var buffer := new Buffer();
    while |parsed| < |laps|
      invariant |parsed| <= |laps|
      invariant fresh(buffer) && buffer.Valid() && buffer.Contents() == []
      invariant buffer.data != null ==> fresh(buffer.data)
      invariant buffer.capacity <= 2 * limit + 4 * RECV_BUFFER_SIZE
      invariant forall l :: 0 <= l < |parsed| ==> Some(parsed[l]) == MessageOf(laps[l])
    {
      var message := RunLap(buffer, laps[|parsed|]);
      parsed := parsed + [message];
    }
    forall l | 0 <= l < |laps| && laps[l][|laps[l]| - 1].Bytes? ensures parsed[l] == Joined(laps[l]) {
      MessageIsJoined(laps[l]);
    }
  }

  /** One lap over an empty buffer: receive, read, clear. */
  method RunLap(buffer: Buffer, lap: seq<Read>) returns (message: seq<char>)
    requires buffer.Valid() && buffer.Contents() == [] && IsLap(lap, |Joined(lap)|) && MessageOf(lap).Some?
    requires buffer.capacity + 2 * |Joined(lap)| + 5 * RECV_BUFFER_SIZE <= TOP
    modifies buffer, buffer.data
    ensures Some(message) == MessageOf(lap)
    ensures buffer.Valid() && buffer.Contents() == []
    ensures buffer.data == old(buffer.data) || fresh(buffer.data)
    ensures buffer.capacity <= old(buffer.capacity)
         || buffer.capacity <= 2 * |Joined(lap)| + 4 * RECV_BUFFER_SIZE
  {
    hide Joined, AfterRead;
    assert buffer.size == |buffer.Contents()| == 0;
    assert [] + Joined(lap[..|lap| - 1]) == Joined(lap[..|lap| - 1]);
    GetData(buffer, lap);
    message := buffer.Bytes();
    buffer.Clear();
  }

  lemma {:induction false} AfterFullRead(start: seq<char>, received: seq<Read>, i: nat)
    requires i < |received|
    ensures received[i].Bytes? ==>
              AfterRead(start + Joined(received[..i]), received[i]) == Some(start + Joined(received[..i + 1]))
    ensures |Joined(received[..i])| <= |Joined(received[..i + 1])|
  {
    hide Joined;
    JoinedNext(received, i);
    if received[i].Bytes? {
      assert start + Joined(received[..i]) + received[i].bytes == start + (Joined(received[..i]) + received[i].bytes);
    }
  }

  lemma {:induction false} GrowthIsBounded(capacity: nat, size: nat)
    requires capacity - size < RECV_BUFFER_SIZE && capacity + RECV_BUFFER_SIZE <= TOP
    ensures RoundUpToPow2(capacity + RECV_BUFFER_SIZE) <= 2 * size + 4 * RECV_BUFFER_SIZE
  {
    RoundUpIsLeast(capacity + RECV_BUFFER_SIZE);
  }
}
