/** The ring of recycled buffers between the connector thread and the parser thread, as atomic steps
    of one producer and one consumer. A load of the other thread's index may return any value that
    index has had since this thread last looked at it. */
module SpscRing {
  import opened Words
  import opened Bits

  type Message = seq<char>

  /** The connector's loop: ask for a buffer, receive into it, commit it. */
  datatype Producer =
    | Ready
    | HeadLoaded        // headCached and headNext are set, tail is not loaded yet
    | Filling           // holds slot headCached
    | Stopped           // getItem returned null, which ends the loop

  /** The parser's loop: pop a buffer, read it, clear it. */
  datatype Consumer =
    | Idle
    | TailLoaded(tailLocal: nat)
    | Popped(item: nat)                  // has the slot, tail is not published yet
    | Reading(item: nat, got: Message)   // tail is published, the slot is still being read
    | Parsed(item: nat)                  // read to the end, not cleared yet

  /** `heads` and `tails` are the values the two atomics have had, the last being the present one;
      `seenTail` and `seenHead` say how far along them the other thread has looked. `incoming` is
      what the connector received for the buffer it holds. */
  datatype State = State(
    slots: seq<Message>, heads: seq<nat>, tails: seq<nat>,
    producer: Producer, headCached: nat, headNext: nat, seenTail: nat, incoming: Message,
    consumer: Consumer, seenHead: nat,
    committed: seq<Message>, parsed: seq<Message>)

  datatype Step =
    | LoadHead
    | LoadTail(age: nat)     // position in `tails` of the value the load returns
    | Receive(bytes: Message)
    | Commit
    | PopLoadTail
    | PopLoadHead(age: nat)  // position in `heads`
    | PublishTail
    | ReadByte
    | FinishParse
    | Clear

  function Head(s: State): nat
    requires s.heads != []
  {
    s.heads[|s.heads| - 1]
  }

  function Tail(s: State): nat
    requires s.tails != []
  {
    s.tails[|s.tails| - 1]
  }

  ghost predicate Shaped(s: State, capacity: nat) {
    && |s.slots| == capacity > 0 && s.heads != [] && s.tails != []
    && Head(s) < capacity && Tail(s) < capacity && s.headCached < capacity
    && match s.consumer
       case Idle => true
       case TailLoaded(t) => t < capacity
       case Popped(i) => i < capacity
       case Reading(i, _) => i < capacity
       case Parsed(i) => i < capacity
  }

  /** Which steps the two threads can take; a load may be as stale as coherence lets it be. */
  ghost predicate Enabled(s: State, capacity: nat, step: Step)
    requires Shaped(s, capacity)
  {
    match step
    case LoadHead => s.producer.Ready?
    case LoadTail(age) => s.producer.HeadLoaded? && s.seenTail <= age < |s.tails|
    case Receive(_) => s.producer.Filling?
    case Commit => s.producer.Filling?
    case PopLoadTail => s.consumer.Idle?
    case PopLoadHead(age) => s.consumer.TailLoaded? && s.seenHead <= age < |s.heads|
    case PublishTail => s.consumer.Popped?
    case ReadByte => s.consumer.Reading? && |s.consumer.got| < |s.slots[s.consumer.item]|
    case FinishParse => s.consumer.Reading? && |s.consumer.got| == |s.slots[s.consumer.item]|
    case Clear => s.consumer.Parsed?
  }

  ghost function Apply(s: State, capacity: nat, step: Step): State
    requires Shaped(s, capacity) && Enabled(s, capacity, step)
  {
    match step
    case LoadHead =>
      s.(producer := HeadLoaded, headCached := Head(s), headNext := FastModulo(Head(s) + 1, capacity))
    case LoadTail(age) =>
      if s.headNext == s.tails[age]
      then s.(producer := Stopped, seenTail := age)
      else s.(producer := Filling, seenTail := age, incoming := [])
    case Receive(bytes) =>
      s.(slots := s.slots[s.headCached := s.slots[s.headCached] + bytes], incoming := s.incoming + bytes)
    case Commit =>
      s.(producer := Ready, heads := s.heads + [s.headNext], committed := s.committed + [s.incoming])
    case PopLoadTail =>
      s.(consumer := TailLoaded(Tail(s)))
    case PopLoadHead(age) =>
      if s.consumer.tailLocal == s.heads[age]
      then s.(consumer := Idle, seenHead := age)
      else s.(consumer := Popped(s.consumer.tailLocal), seenHead := age)
    case PublishTail =>
      s.(consumer := Reading(s.consumer.item, []),
         tails := s.tails + [FastModulo(s.consumer.item + 1, capacity)])
    case ReadByte =>
      var slot := s.slots[s.consumer.item];
      s.(consumer := s.consumer.(got := s.consumer.got + [slot[|s.consumer.got|]]))
    case FinishParse =>
      s.(consumer := Parsed(s.consumer.item), parsed := s.parsed + [s.consumer.got])
    case Clear =>
      s.(consumer := Idle, slots := s.slots[s.consumer.item := []])
  }

  function Initial(capacity: nat): State {
    State(seq(capacity, _ => []), [0], [0], Ready, 0, 0, 0, [], Idle, 0, [], [])
  }

  // ---- Slots by position ---------------------------------------------------------------------

  /** The slot a running count stands for. */
  function Slot(count: nat, capacity: nat): (slot: nat)
    requires capacity > 0
    ensures slot < capacity
  {
    count % capacity
  }

  lemma {:induction false} SlotNext(count: nat, k: nat)
    ensures FastModulo(Slot(count, Pow2(k)) + 1, Pow2(k)) == Slot(count + 1, Pow2(k))
  {
    FastModuloIsMod(count % Pow2(k) + 1, k);
    ModNext(count, Pow2(k));
  }

  lemma {:induction false} SlotsDiffer(a: nat, b: nat, capacity: nat)
    requires 0 < b - a < capacity
    ensures Slot(a, capacity) != Slot(b, capacity)
  {
    if Slot(a, capacity) == Slot(b, capacity) {
      var e := b / capacity - a / capacity;
      assert b - a == e * capacity by {
        assert a == a / capacity * capacity + a % capacity;
        assert b == b / capacity * capacity + b % capacity;
      }
      AtLeast(e, capacity);
    }
  }

  lemma {:induction false} SlotWraps(count: nat, capacity: nat)
    requires capacity > 0
    ensures Slot(count + capacity, capacity) == Slot(count, capacity)
  {
    UniqueRemainder(count + capacity, capacity, count / capacity + 1, count % capacity);
  }

  // ---- The invariant -------------------------------------------------------------------------

  function Commits(s: State): int {
    |s.heads| - 1
  }

  function Pops(s: State): int {
    |s.tails| - 1
  }

  /** How many buffers have come back to the producer, parsed and cleared. */
  function Returned(s: State): int {
    if s.consumer.Parsed? then |s.parsed| - 1 else |s.parsed|
  }

  /** Both indices run through the slots in order, and each thread is where its counts say. */
  ghost predicate Counted(s: State, capacity: nat) {
    && |s.slots| == capacity > 0
    && 0 <= Pops(s) <= s.seenHead <= Commits(s) == |s.committed|
    && (forall k {:trigger s.heads[k]} :: 0 <= k < |s.heads| ==> s.heads[k] == Slot(k, capacity))
    && (forall k {:trigger s.tails[k]} :: 0 <= k < |s.tails| ==> s.tails[k] == Slot(k, capacity))
    && ProducerCounted(s, capacity)
    && ConsumerCounted(s, capacity)
  }

  ghost predicate ProducerCounted(s: State, capacity: nat)
    requires capacity > 0 && s.heads != []
  {
    && s.headCached < capacity
    && s.seenTail <= Pops(s)
    && Commits(s) - s.seenTail < capacity
    && (s.producer.HeadLoaded? || s.producer.Filling? ==>
          s.headCached == Slot(Commits(s), capacity) && s.headNext == Slot(Commits(s) + 1, capacity))
    && (s.producer.Filling? ==> Commits(s) + 1 - s.seenTail < capacity)
  }

  ghost predicate ConsumerCounted(s: State, capacity: nat)
    requires capacity > 0
  {
    match s.consumer
    case Idle => Pops(s) == |s.parsed|
    case TailLoaded(t) => Pops(s) == |s.parsed| && t == Slot(|s.parsed|, capacity)
    case Popped(i) => Pops(s) == |s.parsed| < s.seenHead && i == Slot(|s.parsed|, capacity)
    case Reading(i, _) => Pops(s) == |s.parsed| + 1 && i == Slot(|s.parsed|, capacity)
    case Parsed(i) => Pops(s) == |s.parsed| > 0 && i == Slot(|s.parsed| - 1, capacity)
  }

  /** Committed buffers hold their message until they are returned, the producer's buffer holds what
      it received, and every other slot is empty. */
  ghost predicate Filled(s: State, capacity: nat)
    requires Counted(s, capacity)
  {
    && (forall k {:trigger Slot(k, capacity)} :: Returned(s) <= k < Commits(s) ==>
          s.slots[Slot(k, capacity)] == s.committed[k])
    && (forall k {:trigger Slot(k, capacity)} :: Commits(s) <= k < Returned(s) + capacity ==>
          s.slots[Slot(k, capacity)] == if k == Commits(s) && s.producer.Filling? then s.incoming else [])
    && s.parsed == s.committed[..|s.parsed|]
    && (s.consumer.Reading? ==> s.consumer.got <= s.slots[s.consumer.item])
  }

  ghost predicate Inv(s: State, capacity: nat) {
    Counted(s, capacity) && Filled(s, capacity)
  }

  lemma {:induction false} CountedIsShaped(s: State, capacity: nat)
    requires Counted(s, capacity)
    ensures Shaped(s, capacity)
  {
    assert s.heads[Commits(s)] == Slot(Commits(s), capacity);
    assert s.tails[Pops(s)] == Slot(Pops(s), capacity);
  }

  lemma {:induction false} InitialInv(capacity: nat)
    requires capacity > 0
    ensures Inv(Initial(capacity), capacity)
  {
    assert Slot(0, capacity) == 0;
  }

  // ---- Every step keeps it -------------------------------------------------------------------

  /** The gap test: by the producer's view of tail the ring is refused exactly when all slots but one
      are in use, and the slot kept free is the one just before that tail. */
  lemma {:induction false} GapTest(s: State, capacity: nat, age: nat)
    requires Counted(s, capacity) && s.producer.HeadLoaded? && s.seenTail <= age < |s.tails|
    ensures s.headNext == s.tails[age] <==> Commits(s) - age == capacity - 1
    ensures s.headNext == s.tails[age] ==> s.headCached == Slot(age + (capacity - 1), capacity)
  {
    var next := Commits(s) + 1;
    if next - age < capacity {
      SlotsDiffer(age, next, capacity);
    } else {
      SlotWraps(age, capacity);
    }
  }

  /** The emptiness test is exact for the consumer's view of head. */
  lemma {:induction false} EmptyTest(s: State, capacity: nat, age: nat)
    requires Counted(s, capacity) && s.consumer.TailLoaded? && s.seenHead <= age < |s.heads|
    ensures s.consumer.tailLocal == s.heads[age] <==> age == Pops(s)
  {
    if age > Pops(s) {
      SlotsDiffer(Pops(s), age, capacity);
    }
  }

  /** A slot with one count holds nothing that any other count of the same lap stands for. */
  lemma {:induction false} OthersKeep(s: State, capacity: nat, count: nat)
    requires Counted(s, capacity) && Returned(s) >= 0 && Returned(s) <= count < Returned(s) + capacity
    ensures forall k {:trigger Slot(k, capacity)} :: Returned(s) <= k < Returned(s) + capacity && k != count ==>
              Slot(k, capacity) != Slot(count, capacity)
  {
    forall k | Returned(s) <= k < Returned(s) + capacity && k != count
      ensures Slot(k, capacity) != Slot(count, capacity)
    {
      if k < count {
        SlotsDiffer(k, count, capacity);
      } else {
        SlotsDiffer(count, k, capacity);
      }
    }
  }

  lemma {:induction false} LoadHeadKeeps(s: State, exponent: nat)
    requires var capacity := Pow2(exponent);
             Inv(s, capacity) && Shaped(s, capacity) && Enabled(s, capacity, LoadHead)
    ensures Inv(Apply(s, Pow2(exponent), LoadHead), Pow2(exponent))
  {
    hide Slot;
    var capacity := Pow2(exponent);
    SlotNext(Commits(s), exponent);
    assert s.heads[Commits(s)] == Slot(Commits(s), capacity);
  }

  lemma {:induction false} LoadTailKeeps(s: State, exponent: nat, age: nat)
    requires var capacity := Pow2(exponent);
             Inv(s, capacity) && Shaped(s, capacity) && Enabled(s, capacity, LoadTail(age))
    ensures Inv(Apply(s, Pow2(exponent), LoadTail(age)), Pow2(exponent))
  {
    hide Slot;
    var capacity := Pow2(exponent);
    GapTest(s, capacity, age);
  }

  lemma {:induction false} ReceiveKeeps(s: State, exponent: nat, bytes: Message)
    requires var capacity := Pow2(exponent);
             Inv(s, capacity) && Shaped(s, capacity) && Enabled(s, capacity, Receive(bytes))
    ensures Inv(Apply(s, Pow2(exponent), Receive(bytes)), Pow2(exponent))
  {
    hide Slot;
    var capacity := Pow2(exponent);
    OthersKeep(s, capacity, Commits(s));
    assert s.slots[s.headCached] == s.incoming;
  }

  lemma {:induction false} CommitKeeps(s: State, exponent: nat)
    requires var capacity := Pow2(exponent);
             Inv(s, capacity) && Shaped(s, capacity) && Enabled(s, capacity, Commit)
    ensures Inv(Apply(s, Pow2(exponent), Commit), Pow2(exponent))
  {
    hide Slot, Pow2, FastModulo;
    var capacity := Pow2(exponent);
    assert s.slots[s.headCached] == s.incoming;
  }

  lemma {:induction false} PopLoadTailKeeps(s: State, exponent: nat)
    requires var capacity := Pow2(exponent);
             Inv(s, capacity) && Shaped(s, capacity) && Enabled(s, capacity, PopLoadTail)
    ensures Inv(Apply(s, Pow2(exponent), PopLoadTail), Pow2(exponent))
  {
    hide Slot;
    var capacity := Pow2(exponent);
    assert s.tails[Pops(s)] == Slot(Pops(s), capacity);
  }

  lemma {:induction false} PopLoadHeadKeeps(s: State, exponent: nat, age: nat)
    requires var capacity := Pow2(exponent);
             Inv(s, capacity) && Shaped(s, capacity) && Enabled(s, capacity, PopLoadHead(age))
    ensures Inv(Apply(s, Pow2(exponent), PopLoadHead(age)), Pow2(exponent))
  {
    hide Slot;
    var capacity := Pow2(exponent);
    EmptyTest(s, capacity, age);
  }

  lemma {:induction false} PublishTailKeeps(s: State, exponent: nat)
    requires var capacity := Pow2(exponent);
             Inv(s, capacity) && Shaped(s, capacity) && Enabled(s, capacity, PublishTail)
    ensures Inv(Apply(s, Pow2(exponent), PublishTail), Pow2(exponent))
  {
    hide Slot;
    var capacity := Pow2(exponent);
    SlotNext(Pops(s), exponent);
  }

  lemma {:induction false} ReadByteKeeps(s: State, exponent: nat)
    requires var capacity := Pow2(exponent);
             Inv(s, capacity) && Shaped(s, capacity) && Enabled(s, capacity, ReadByte)
    ensures Inv(Apply(s, Pow2(exponent), ReadByte), Pow2(exponent))
  {
    hide Slot;
    var capacity := Pow2(exponent);
    var slot, got := s.slots[s.consumer.item], s.consumer.got;
    assert got + [slot[|got|]] == slot[..|got| + 1];
  }

  lemma {:induction false} FinishParseKeeps(s: State, exponent: nat)
    requires var capacity := Pow2(exponent);
             Inv(s, capacity) && Shaped(s, capacity) && Enabled(s, capacity, FinishParse)
    ensures Inv(Apply(s, Pow2(exponent), FinishParse), Pow2(exponent))
  {
    hide Slot;
    var capacity := Pow2(exponent);
    var n := |s.parsed|;
    assert s.slots[Slot(n, capacity)] == s.committed[n] == s.consumer.got;
    assert s.committed[..n + 1] == s.committed[..n] + [s.committed[n]];
  }

  lemma {:induction false} ClearKeeps(s: State, exponent: nat)
    requires var capacity := Pow2(exponent);
             Inv(s, capacity) && Shaped(s, capacity) && Enabled(s, capacity, Clear)
    ensures Inv(Apply(s, Pow2(exponent), Clear), Pow2(exponent))
  {
    hide Slot;
    var capacity := Pow2(exponent);
    OthersKeep(s, capacity, Returned(s));
    SlotWraps(Returned(s), capacity);
  }

  lemma {:induction false} StepKeeps(s: State, exponent: nat, step: Step)
    requires var capacity := Pow2(exponent);
             Inv(s, capacity) && Shaped(s, capacity) && Enabled(s, capacity, step)
    ensures Inv(Apply(s, Pow2(exponent), step), Pow2(exponent))
  {
    hide Slot, Apply;
    match step
    case LoadHead => LoadHeadKeeps(s, exponent);
    case LoadTail(age) => LoadTailKeeps(s, exponent, age);
    case Receive(bytes) => ReceiveKeeps(s, exponent, bytes);
    case Commit => CommitKeeps(s, exponent);
    case PopLoadTail => PopLoadTailKeeps(s, exponent);
    case PopLoadHead(age) => PopLoadHeadKeeps(s, exponent, age);
    case PublishTail => PublishTailKeeps(s, exponent);
    case ReadByte => ReadByteKeeps(s, exponent);
    case FinishParse => FinishParseKeeps(s, exponent);
    case Clear => ClearKeeps(s, exponent);
  }

  // ---- All runs ------------------------------------------------------------------------------

  /** The state after a run, if every step of it was possible. */
  ghost function Run(exponent: nat, steps: seq<Step>): Option<State> {
    if steps == [] then Some(Initial(Pow2(exponent)))
    else
      match Run(exponent, steps[..|steps| - 1])
      case None => None
      case Some(s) =>
        if Shaped(s, Pow2(exponent)) && Enabled(s, Pow2(exponent), steps[|steps| - 1])
        then Some(Apply(s, Pow2(exponent), steps[|steps| - 1]))
        else None
  }

  lemma {:induction false} RunInv(exponent: nat, steps: seq<Step>)
    requires Run(exponent, steps).Some?
    ensures Inv(Run(exponent, steps).value, Pow2(exponent)) && Shaped(Run(exponent, steps).value, Pow2(exponent))
  {
    hide Enabled, Apply, Initial;
    if steps == [] {
      InitialInv(Pow2(exponent));
      CountedIsShaped(Initial(Pow2(exponent)), Pow2(exponent));
    } else {
      var before, step := steps[..|steps| - 1], steps[|steps| - 1];
      RunInv(exponent, before);
      StepKeeps(Run(exponent, before).value, exponent, step);
      CountedIsShaped(Run(exponent, steps).value, Pow2(exponent));
    }
  }

  predicate HasSlot(c: Consumer) {
    c.Popped? || c.Reading? || c.Parsed?
  }

  /** The buffer the producer fills is never the one the consumer has popped and not yet cleared,
      although popping publishes the new tail before the buffer is read and the producer may act on
      an old tail. */
  lemma {:induction false} NeverTheSameSlot(exponent: nat, steps: seq<Step>)
    requires Run(exponent, steps).Some?
    ensures var s := Run(exponent, steps).value;
            s.producer.Filling? && HasSlot(s.consumer) ==> s.headCached != s.consumer.item
  {
    RunInv(exponent, steps);
    var s, capacity := Run(exponent, steps).value, Pow2(exponent);
    if s.producer.Filling? && HasSlot(s.consumer) {
      hide Slot;
      SlotsDiffer(Returned(s), Commits(s), capacity);
    }
  }

  /** The buffer the producer holds contains what was received since it got the buffer, and nothing
      left over; in particular it is empty when claimed. */
  lemma {:induction false} ClaimedBufferIsClean(exponent: nat, steps: seq<Step>)
    requires Run(exponent, steps).Some?
    ensures var s := Run(exponent, steps).value;
            s.producer.Filling? ==> s.headCached < |s.slots| && s.slots[s.headCached] == s.incoming
  {
    RunInv(exponent, steps);
    hide Slot;
    var s := Run(exponent, steps).value;
    assert s.producer.Filling? ==> s.slots[Slot(Commits(s), Pow2(exponent))] == s.incoming;
  }

  // ---- What the connector received, by the steps alone -------------------------------------------

  /** The bytes of all reads since the last commit. */
  function Pending(steps: seq<Step>): Message {
    if steps == [] then []
    else
      var before := Pending(steps[..|steps| - 1]);
      match steps[|steps| - 1]
      case Receive(bytes) => before + bytes
      case Commit => []
      case _ => before
  }

  /** One message for each commit: the bytes of all reads since the commit before. */
  function MessagesOf(steps: seq<Step>): seq<Message> {
    if steps == [] then []
    else
      var front := steps[..|steps| - 1];
      if steps[|steps| - 1].Commit? then MessagesOf(front) + [Pending(front)] else MessagesOf(front)
  }

  /** What is committed is what was received, and what is received but not committed is what the buffer
      under way is to hold. */
  lemma {:induction false} CommittedIsReceived(exponent: nat, steps: seq<Step>)
    requires Run(exponent, steps).Some?
    ensures var s := Run(exponent, steps).value;
            && s.committed == MessagesOf(steps)
            && Pending(steps) == if s.producer.Filling? then s.incoming else []
  {
    if steps == [] {
      RunStartsReady(exponent);
    } else {
      var front := steps[..|steps| - 1];
      RunNext(exponent, steps);
      CommittedIsReceived(exponent, front);
      hide Run, Slot;
      var s := Run(exponent, front).value;
      assert Run(exponent, steps).value == Apply(s, Pow2(exponent), steps[|steps| - 1]);
    }
  }

  /** The buffer under way holds, byte for byte, all reads since the last commit, and nothing else. */
  lemma {:induction false} HeldBufferIsReceived(exponent: nat, steps: seq<Step>)
    requires Run(exponent, steps).Some?
    ensures var s := Run(exponent, steps).value;
            s.producer.Filling? ==> s.headCached < |s.slots| && s.slots[s.headCached] == Pending(steps)
  {
    CommittedIsReceived(exponent, steps);
    ClaimedBufferIsClean(exponent, steps);
  }

  /** What is parsed is at all times a prefix of the messages received, message for message and byte for
      byte, never more than one ring full behind what is committed. */
  lemma {:induction false} ParsedIsPrefix(exponent: nat, steps: seq<Step>)
    requires Run(exponent, steps).Some?
    ensures var s := Run(exponent, steps).value;
            && s.parsed <= s.committed == MessagesOf(steps)
            && |s.committed| - |s.parsed| <= Pow2(exponent)
  {
    RunInv(exponent, steps);
    CommittedIsReceived(exponent, steps);
  }

  /** What the parser is reading is the start of the next message received. */
  lemma {:induction false} ReadingIsReceived(exponent: nat, steps: seq<Step>)
    requires Run(exponent, steps).Some? && Run(exponent, steps).value.consumer.Reading?
    ensures var s := Run(exponent, steps).value;
            |s.parsed| < |MessagesOf(steps)| && s.consumer.got <= MessagesOf(steps)[|s.parsed|]
  {
    RunInv(exponent, steps);
    CommittedIsReceived(exponent, steps);
    hide Slot;
    var s, capacity := Run(exponent, steps).value, Pow2(exponent);
    assert s.slots[Slot(|s.parsed|, capacity)] == s.committed[|s.parsed|];
  }

  /** A pop is refused exactly if the head it loaded is the one its own pops have come to. */
  lemma {:induction false} PopRefusedExactly(s: State, exponent: nat, age: nat)
    requires Inv(s, Pow2(exponent)) && Shaped(s, Pow2(exponent)) && Enabled(s, Pow2(exponent), PopLoadHead(age))
    ensures Apply(s, Pow2(exponent), PopLoadHead(age)).consumer.Idle? <==> age == Pops(s)
  {
    hide Slot, Filled;
    EmptyTest(s, Pow2(exponent), age);
  }

  /** Neither thread is ever stuck, save for a connector that has stopped. */
  lemma {:induction false} ThreadsGoOn(exponent: nat, steps: seq<Step>)
    requires Run(exponent, steps).Some?
    ensures var s, capacity := Run(exponent, steps).value, Pow2(exponent);
            && Shaped(s, capacity)
            && (s.producer.Stopped? || Enabled(s, capacity, LoadHead) || Enabled(s, capacity, Commit)
                || forall age :: s.seenTail <= age < |s.tails| ==> Enabled(s, capacity, LoadTail(age)))
            && (Enabled(s, capacity, PopLoadTail) || Enabled(s, capacity, PublishTail)
                || Enabled(s, capacity, ReadByte) || Enabled(s, capacity, FinishParse) || Enabled(s, capacity, Clear)
                || forall age :: s.seenHead <= age < |s.heads| ==> Enabled(s, capacity, PopLoadHead(age)))
  {
    hide Slot, Run, Inv;
    RunInv(exponent, steps);
    if Run(exponent, steps).value.consumer.Reading? {
      ReadsWithin(Run(exponent, steps).value, Pow2(exponent));
    }
  }

  lemma {:induction false} ReadsWithin(s: State, capacity: nat)
    requires Inv(s, capacity) && Shaped(s, capacity) && s.consumer.Reading?
    ensures |s.consumer.got| <= |s.slots[s.consumer.item]|
  {
    hide Slot;
  }

  /** A pop that sees the present head and finds the ring empty leaves no message behind. */
  lemma {:induction false} EmptyMeansAllParsed(exponent: nat, steps: seq<Step>)
    requires steps != [] && Run(exponent, steps).Some?
    requires var before := Run(exponent, steps[..|steps| - 1]).value;
             steps[|steps| - 1] == PopLoadHead(|before.heads| - 1)
    ensures var s := Run(exponent, steps).value;
            s.consumer.Idle? <==> s.parsed == s.committed
  {
    var before := Run(exponent, steps[..|steps| - 1]).value;
    RunInv(exponent, steps[..|steps| - 1]);
    EmptyTest(before, Pow2(exponent), |before.heads| - 1);
    var s := Run(exponent, steps).value;
    assert s == Apply(before, Pow2(exponent), PopLoadHead(|before.heads| - 1));
    assert s.parsed == before.parsed && s.committed == before.committed;
    assert before.committed[..|before.committed|] == before.committed;
  }

  /** At step `i` the connector loads a tail that makes the ring look full: every slot but the gap is
      in use as far as that tail tells. */
  ghost predicate LooksFull(exponent: nat, steps: seq<Step>, i: nat)
    requires i < |steps|
  {
    && steps[i].LoadTail? && Run(exponent, steps[..i]).Some?
    && Commits(Run(exponent, steps[..i]).value) - steps[i].age == Pow2(exponent) - 1
  }

  lemma {:induction false} StopsAtStep(s: State, exponent: nat, step: Step)
    requires Inv(s, Pow2(exponent)) && Shaped(s, Pow2(exponent)) && Enabled(s, Pow2(exponent), step)
    ensures Apply(s, Pow2(exponent), step).producer.Stopped?
       <==> s.producer.Stopped? || (step.LoadTail? && Commits(s) - step.age == Pow2(exponent) - 1)
    ensures s.producer.Stopped? ==> Apply(s, Pow2(exponent), step).committed == s.committed
  {
    hide Slot, Filled;
    if step.LoadTail? {
      GapTest(s, Pow2(exponent), step.age);
    }
  }

  /** The connector has stopped exactly if some load of the tail made the ring look full; a single one
      ends its loop for good, and nothing is committed after that. */
  lemma {:induction false} StoppedExactlyIfOnceFull(exponent: nat, steps: seq<Step>)
    requires Run(exponent, steps).Some?
    ensures Run(exponent, steps).value.producer.Stopped?
       <==> exists i :: 0 <= i < |steps| && LooksFull(exponent, steps, i)
    ensures forall i :: 0 <= i < |steps| && LooksFull(exponent, steps, i) ==>
              Run(exponent, steps).value.committed == Run(exponent, steps[..i]).value.committed
  {
    hide Run, Apply, Inv, Commits;
    if steps == [] {
      RunStartsReady(exponent);
    } else {
      var k := |steps| - 1;
      var front := steps[..k];
      RunNext(exponent, steps);
      RunInv(exponent, front);
      StoppedExactlyIfOnceFull(exponent, front);
      StopsAtStep(Run(exponent, front).value, exponent, steps[k]);
      forall i | 0 <= i < k ensures LooksFull(exponent, front, i) <==> LooksFull(exponent, steps, i) {
        assert front[..i] == steps[..i];
      }
      assert LooksFull(exponent, steps, k)
        <==> steps[k].LoadTail? && Commits(Run(exponent, front).value) - steps[k].age == Pow2(exponent) - 1;
      forall i | 0 <= i < |steps| && LooksFull(exponent, steps, i)
        ensures Run(exponent, steps).value.committed == Run(exponent, steps[..i]).value.committed
      {
        if i < k {
          assert front[..i] == steps[..i];
          assert LooksFull(exponent, front, i);
        } else {
          LoadCommitsNothing(Run(exponent, front).value, exponent, steps[k]);
        }
      }
    }
  }

  lemma {:induction false} RunStartsReady(exponent: nat)
    ensures Run(exponent, []) == Some(Initial(Pow2(exponent)))
  {
  }

  lemma {:induction false} RunNext(exponent: nat, steps: seq<Step>)
    requires steps != [] && Run(exponent, steps).Some?
    ensures var front := Run(exponent, steps[..|steps| - 1]);
      && front.Some? && Shaped(front.value, Pow2(exponent))
      && Enabled(front.value, Pow2(exponent), steps[|steps| - 1])
      && Run(exponent, steps).value == Apply(front.value, Pow2(exponent), steps[|steps| - 1])
  {
  }

  lemma {:induction false} LoadCommitsNothing(s: State, exponent: nat, step: Step)
    requires Shaped(s, Pow2(exponent)) && Enabled(s, Pow2(exponent), step) && step.LoadTail?
    ensures Apply(s, Pow2(exponent), step).committed == s.committed
  {
  }

  /** Coherence is needed: in a ring of two slots, a producer that saw a tail and then an older one
      would be given the slot the consumer is still reading. */
  lemma {:induction false} OlderTailWouldCollide() returns (steps: seq<Step>, s: State)
    ensures Run(1, steps) == Some(s)
    ensures s.producer.HeadLoaded? && s.consumer.Reading? && s.headCached == s.consumer.item
    ensures s.seenTail == 1 && |s.tails| == 2
    ensures s.headNext == s.tails[1]   // the tail it saw refuses the slot
    ensures s.headNext != s.tails[0]   // an older one would grant it
  {
    hide Run, FastModulo;
    TwoSlots();
    steps, s := FirstMessageBeingRead();
    steps, s := Extend(steps, s, LoadHead);
    steps, s := Extend(steps, s, LoadTail(1));
    steps, s := Extend(steps, s, Commit);
    steps, s := Extend(steps, s, LoadHead);
  }

  /** The connector does stop: in a ring of two slots the second buffer it asks for may already be refused. */
  lemma {:induction false} TwoSlotsStop() returns (steps: seq<Step>, s: State)
    ensures Run(1, steps) == Some(s) && s.producer.Stopped? && s.committed == [[]] && s.parsed == []
  {
    TwoSlots();
    steps, s := [], Initial(2);
    assert Run(1, steps) == Some(s);
    hide Run, FastModulo;
    assert s == State([[], []], [0], [0], Ready, 0, 0, 0, [], Idle, 0, [], []);
    steps, s := Extend(steps, s, LoadHead);
    steps, s := Extend(steps, s, LoadTail(0));
    steps, s := Extend(steps, s, Commit);
    assert s == State([[], []], [0, 1], [0], Ready, 0, 1, 0, [], Idle, 0, [[]], []);
    steps, s := Extend(steps, s, LoadHead);
    steps, s := Extend(steps, s, LoadTail(0));
  }

  /** A stale tail stops the connector although the slot is free by then. */
  lemma {:induction false} StaleTailStops() returns (steps: seq<Step>, s: State)
    ensures Run(1, steps) == Some(s) && s.producer.Stopped? && s.headNext != s.tails[|s.tails| - 1]
  {
    hide Run, FastModulo;
    TwoSlots();
    steps, s := FirstMessageBeingRead();
    steps, s := Extend(steps, s, LoadHead);
    steps, s := Extend(steps, s, LoadTail(0));
  }

  lemma {:induction false} FirstMessageBeingRead() returns (steps: seq<Step>, s: State)
    ensures Run(1, steps) == Some(s)
    ensures s == State([[], []], [0, 1], [0, 1], Ready, 0, 1, 0, [], Reading(0, []), 1, [[]], [])
  {
    TwoSlots();
    steps, s := [], Initial(2);
    assert Run(1, steps) == Some(s);
    hide Run, FastModulo;
    assert s == State([[], []], [0], [0], Ready, 0, 0, 0, [], Idle, 0, [], []);
    steps, s := Extend(steps, s, LoadHead);
    steps, s := Extend(steps, s, LoadTail(0));
    steps, s := Extend(steps, s, Commit);
    assert s == State([[], []], [0, 1], [0], Ready, 0, 1, 0, [], Idle, 0, [[]], []);
    steps, s := Extend(steps, s, PopLoadTail);
    steps, s := Extend(steps, s, PopLoadHead(1));
    steps, s := Extend(steps, s, PublishTail);
  }

  lemma {:induction false} TwoSlots()
    ensures Pow2(1) == 2 && FastModulo(1, 2) == 1 && FastModulo(2, 2) == 0
  {
    FastModuloIsMod(1, 1);
    FastModuloIsMod(2, 1);
  }

  lemma {:induction false} Extend(steps: seq<Step>, s: State, step: Step) returns (longer: seq<Step>, after: State)
    requires Run(1, steps) == Some(s) && Pow2(1) == 2 && Shaped(s, 2) && Enabled(s, 2, step)
    ensures after == Apply(s, 2, step) && Run(1, longer) == Some(after)
  {
    longer, after := steps + [step], Apply(s, 2, step);
    assert longer[..|longer| - 1] == steps;
  }
}
