/** The lock-free histogram slot: any number of overlapping `record` calls, step by step. */
module Histogram {

  import opened Words
  import opened Sequences

  /** Where a call stands. Inside a loop it holds the value it last read, named by its place in the history. */
  datatype Pc = Ready | Counted | Summed | MinLoop(at: nat) | MinDone | MaxLoop(at: nat) | Done

  datatype Call = Call(value: Word64, pc: Pc)

  /** The slot with the full modification history of `min` and `max`, and the calls under way. */
  datatype Slot = Slot(count: Word64, sum: Word64, mins: seq<Word64>, maxs: seq<Word64>, calls: seq<Call>)

  function Min(s: Slot): Word64
    requires s.mins != []
  {
    s.mins[|s.mins| - 1]
  }

  function Max(s: Slot): Word64
    requires s.maxs != []
  {
    s.maxs[|s.maxs| - 1]
  }

  /** One atomic step of call `i`. A load or a failed exchange may return any value of the history, the `k`-th. */
  datatype Step =
    | AddCount(i: nat)
    | AddSum(i: nat)
    | LoadMin(i: nat, k: nat)
    | SwapMin(i: nat)
    | MissMin(i: nat, k: nat)
    | LoadMax(i: nat, k: nat)
    | SwapMax(i: nat)
    | MissMax(i: nat, k: nat)

  /** An exchange succeeds only when the current value is the expected one. */
  predicate Enabled(s: Slot, t: Step) {
    && t.i < |s.calls|
    && s.mins != [] && s.maxs != []
    && var pc := s.calls[t.i].pc;
      match t
      case AddCount(_) => pc == Ready
      case AddSum(_) => pc == Counted
      case LoadMin(_, k) => pc == Summed && k < |s.mins|
      case SwapMin(_) => pc.MinLoop? && pc.at < |s.mins| && s.mins[pc.at] == Min(s)
      case MissMin(_, k) => pc.MinLoop? && pc.at < |s.mins| && k < |s.mins|
      case LoadMax(_, k) => pc == MinDone && k < |s.maxs|
      case SwapMax(_) => pc.MaxLoop? && pc.at < |s.maxs| && s.maxs[pc.at] == Max(s)
      case MissMax(_, k) => pc.MaxLoop? && pc.at < |s.maxs| && k < |s.maxs|
  }

  /** Having read `mins[k]`: go round the loop or leave it. */
  function ReadMin(s: Slot, value: Word64, k: nat): Pc
    requires k < |s.mins|
  {
    if value < s.mins[k] then MinLoop(k) else MinDone
  }

  function ReadMax(s: Slot, value: Word64, k: nat): Pc
    requires k < |s.maxs|
  {
    if value > s.maxs[k] then MaxLoop(k) else Done
  }

  function At(s: Slot, i: nat, pc: Pc): seq<Call>
    requires i < |s.calls|
  {
    s.calls[i := Call(s.calls[i].value, pc)]
  }

  function Next(s: Slot, t: Step): Slot
    requires Enabled(s, t)
  {
    var v := s.calls[t.i].value;
    match t
    case AddCount(i) => s.(count := Wrap(s.count + 1), calls := At(s, i, Counted))
    case AddSum(i) => s.(sum := Wrap(s.sum + v), calls := At(s, i, Summed))
    case LoadMin(i, k) => s.(calls := At(s, i, ReadMin(s, v, k)))
    case SwapMin(i) => s.(mins := s.mins + [v], calls := At(s, i, MinDone))
    case MissMin(i, k) => s.(calls := At(s, i, ReadMin(s, v, k)))
    case LoadMax(i, k) => s.(calls := At(s, i, ReadMax(s, v, k)))
    case SwapMax(i) => s.(maxs := s.maxs + [v], calls := At(s, i, Done))
    case MissMax(i, k) => s.(calls := At(s, i, ReadMax(s, v, k)))
  }

  /** A fresh slot with one call to come for each value. */
  function Start(values: seq<Word64>): Slot {
    Slot(0, 0, [WORD64 - 1], [0], seq(|values|, i requires 0 <= i < |values| => Call(values[i], Ready)))
  }

  ghost predicate Runs(s: Slot, steps: seq<Step>, t: Slot)
    decreases |steps|
  {
    if steps == [] then s == t
    else Enabled(s, steps[0]) && Runs(Next(s, steps[0]), steps[1..], t)
  }

  // ----- Sums over calls -----

  function SumBy(calls: seq<Call>, f: Call -> nat): nat {
    if calls == [] then 0 else SumBy(calls[..|calls| - 1], f) + f(calls[|calls| - 1])
  }

  lemma {:induction false} SumByUpdate(calls: seq<Call>, f: Call -> nat, i: nat, c: Call)
    requires i < |calls|
    ensures SumBy(calls[i := c], f) + f(calls[i]) == SumBy(calls, f) + f(c)
  {
    var n := |calls| - 1;
    if i == n {
      assert calls[i := c][..n] == calls[..n];
    } else {
      assert calls[i := c][..n] == calls[..n][i := c];
      SumByUpdate(calls[..n], f, i, c);
    }
  }

  lemma {:induction false} SumBySame(calls: seq<Call>, f: Call -> nat, g: Call -> nat)
    requires forall i :: 0 <= i < |calls| ==> f(calls[i]) == g(calls[i])
    ensures SumBy(calls, f) == SumBy(calls, g)
  {
    if calls != [] {
      SumBySame(calls[..|calls| - 1], f, g);
    }
  }

  function CountedOne(c: Call): nat {
    if c.pc.Ready? then 0 else 1
  }

  function SummedValue(c: Call): nat {
    if c.pc.Ready? || c.pc.Counted? then 0 else c.value
  }

  // ----- What every step keeps -----

  predicate PastMin(pc: Pc) {
    pc.MinDone? || pc.MaxLoop? || pc.Done?
  }

  /** `min` only falls, and only to values that some call records. */
  ghost predicate MinsFall(s: Slot) {
    && s.mins != [] && s.mins[0] == WORD64 - 1
    && (forall j, k :: 0 <= j < k < |s.mins| ==> s.mins[j] > s.mins[k])
    && (forall j :: 0 < j < |s.mins| ==> exists i :: 0 <= i < |s.calls| && s.calls[i].value == s.mins[j])
  }

  ghost predicate MaxsRise(s: Slot) {
    && s.maxs != [] && s.maxs[0] == 0
    && (forall j, k :: 0 <= j < k < |s.maxs| ==> s.maxs[j] < s.maxs[k])
    && (forall j :: 0 < j < |s.maxs| ==> exists i :: 0 <= i < |s.calls| && s.calls[i].value == s.maxs[j])
  }

  /** A call past a loop is covered by it; a call inside one still has something to improve on. */
  predicate CoveredCall(mins: seq<Word64>, maxs: seq<Word64>, c: Call)
    requires mins != [] && maxs != []
  {
    && (PastMin(c.pc) ==> mins[|mins| - 1] <= c.value)
    && (c.pc.Done? ==> c.value <= maxs[|maxs| - 1])
    && (c.pc.MinLoop? ==> c.pc.at < |mins| && c.value < mins[c.pc.at])
    && (c.pc.MaxLoop? ==> c.pc.at < |maxs| && c.value > maxs[c.pc.at])
  }

  ghost predicate Covered(s: Slot)
    requires s.mins != [] && s.maxs != []
  {
    forall i :: 0 <= i < |s.calls| ==> CoveredCall(s.mins, s.maxs, s.calls[i])
  }

  ghost predicate Totals(s: Slot) {
    && s.count == Wrap(SumBy(s.calls, CountedOne))
    && s.sum == Wrap(SumBy(s.calls, SummedValue))
  }

  ghost predicate Inv(s: Slot) {
    MinsFall(s) && MaxsRise(s) && Covered(s) && Totals(s)
  }

  lemma {:induction false} StartInv(values: seq<Word64>)
    ensures Inv(Start(values))
  {
    SumIsZero(Start(values).calls, CountedOne);
    SumIsZero(Start(values).calls, SummedValue);
  }

  lemma {:induction false} SumIsZero(calls: seq<Call>, f: Call -> nat)
    requires forall i :: 0 <= i < |calls| ==> f(calls[i]) == 0
    ensures SumBy(calls, f) == 0
  {
    if calls != [] {
      SumIsZero(calls[..|calls| - 1], f);
    }
  }

  lemma {:induction false} SameValues(s: Slot, t: Step)
    requires Enabled(s, t)
    ensures |Next(s, t).calls| == |s.calls|
    ensures forall i :: 0 <= i < |s.calls| ==> Next(s, t).calls[i].value == s.calls[i].value
  {
  }

  /** Only a successful exchange writes `min`, with a smaller value. */
  lemma {:induction false} MinsStillFall(s: Slot, t: Step)
    requires MinsFall(s) && MaxsRise(s) && Covered(s) && Enabled(s, t)
    ensures MinsFall(Next(s, t))
  {
    hide MaxsRise, PastMin;
    var u := Next(s, t);
    SameValues(s, t);
    if t.SwapMin? {
      assert CoveredCall(s.mins, s.maxs, s.calls[t.i]);
      assert u.calls[t.i].value == u.mins[|s.mins|];
    }
    forall j | 0 < j < |u.mins|
      ensures exists i :: 0 <= i < |u.calls| && u.calls[i].value == u.mins[j]
    {
      if j < |s.mins| {
        var i :| 0 <= i < |s.calls| && s.calls[i].value == s.mins[j];
        assert u.calls[i].value == u.mins[j];
      }
    }
  }

  lemma {:induction false} MaxsStillRise(s: Slot, t: Step)
    requires MinsFall(s) && MaxsRise(s) && Covered(s) && Enabled(s, t)
    ensures MaxsRise(Next(s, t))
  {
    hide MinsFall, PastMin;
    var u := Next(s, t);
    SameValues(s, t);
    if t.SwapMax? {
      assert CoveredCall(s.mins, s.maxs, s.calls[t.i]);
      assert u.calls[t.i].value == u.maxs[|s.maxs|];
    }
    forall j | 0 < j < |u.maxs|
      ensures exists i :: 0 <= i < |u.calls| && u.calls[i].value == u.maxs[j]
    {
      if j < |s.maxs| {
        var i :| 0 <= i < |s.calls| && s.calls[i].value == s.maxs[j];
        assert u.calls[i].value == u.maxs[j];
      }
    }
  }

  lemma {:induction false} StaysCovered(s: Slot, t: Step, c: Call)
    requires MinsFall(s) && MaxsRise(s) && Enabled(s, t) && CoveredCall(s.mins, s.maxs, c)
    requires MinsFall(Next(s, t)) && MaxsRise(Next(s, t))
    ensures CoveredCall(Next(s, t).mins, Next(s, t).maxs, c)
  {
    var u := Next(s, t);
    assert u.mins == s.mins || (|u.mins| == |s.mins| + 1 && u.mins[..|s.mins|] == s.mins);
    assert u.maxs == s.maxs || (|u.maxs| == |s.maxs| + 1 && u.maxs[..|s.maxs|] == s.maxs);
    assert Min(u) <= Min(s) && Max(u) >= Max(s);
  }

  lemma {:induction false} MoverCovered(s: Slot, t: Step)
    requires Enabled(s, t) && CoveredCall(s.mins, s.maxs, s.calls[t.i])
    requires forall k :: 0 <= k < |s.mins| ==> s.mins[k] >= Min(s)
    requires forall k :: 0 <= k < |s.maxs| ==> s.maxs[k] <= Max(s)
    ensures CoveredCall(Next(s, t).mins, Next(s, t).maxs, Next(s, t).calls[t.i])
  {
  }

  lemma {:induction false} LastIsExtreme(s: Slot)
    requires MinsFall(s) && MaxsRise(s)
    ensures forall k :: 0 <= k < |s.mins| ==> s.mins[k] >= Min(s)
    ensures forall k :: 0 <= k < |s.maxs| ==> s.maxs[k] <= Max(s)
  {
  }

  lemma {:induction false} StillCovered(s: Slot, t: Step)
    requires MinsFall(s) && MaxsRise(s) && Covered(s) && Enabled(s, t)
    requires MinsFall(Next(s, t)) && MaxsRise(Next(s, t))
    ensures Covered(Next(s, t))
  {
    hide MinsFall, MaxsRise, CoveredCall;
    var u := Next(s, t);
    LastIsExtreme(s);
    forall i | 0 <= i < |u.calls|
      ensures CoveredCall(u.mins, u.maxs, u.calls[i])
    {
      if i == t.i {
        MoverCovered(s, t);
      } else {
        StaysCovered(s, t, s.calls[i]);
      }
    }
  }

  lemma {:induction false} ReadsGoOn(s: Slot, t: Step)
    requires Enabled(s, t)
    ensures t.LoadMin? || t.MissMin? ==>
              var pc := ReadMin(s, s.calls[t.i].value, t.k); pc.MinLoop? || pc.MinDone?
    ensures t.LoadMax? || t.MissMax? ==>
              var pc := ReadMax(s, s.calls[t.i].value, t.k); pc.MaxLoop? || pc.Done?
  {
  }

  lemma {:induction false} TotalsKept(s: Slot, t: Step)
    requires Totals(s) && Enabled(s, t)
    ensures Totals(Next(s, t))
  {
    hide Wrap, SumBy, ReadMin, ReadMax;
    var u := Next(s, t);
    var c := u.calls[t.i];
    ReadsGoOn(s, t);
    SumByUpdate(s.calls, CountedOne, t.i, c);
    SumByUpdate(s.calls, SummedValue, t.i, c);
    WrapPlus(SumBy(s.calls, CountedOne), 1);
    WrapPlus(SumBy(s.calls, SummedValue), c.value);
  }

  lemma {:induction false} StepKeepsInv(s: Slot, t: Step)
    requires Inv(s) && Enabled(s, t)
    ensures Inv(Next(s, t))
  {
    MinsStillFall(s, t);
    MaxsStillRise(s, t);
    StillCovered(s, t);
    TotalsKept(s, t);
  }

  lemma {:induction false} RunKeepsInv(s: Slot, steps: seq<Step>, t: Slot)
    requires Inv(s) && Runs(s, steps, t)
    ensures Inv(t)
    ensures |t.calls| == |s.calls| && forall i :: 0 <= i < |s.calls| ==> t.calls[i].value == s.calls[i].value
    decreases |steps|
  {
    hide Inv;
    if steps != [] {
      StepKeepsInv(s, steps[0]);
      SameValues(s, steps[0]);
      RunKeepsInv(Next(s, steps[0]), steps[1..], t);
    }
  }

  // ----- Results -----

  /** At every moment: calls past their loops lie between `min` and `max`, which are initial or recorded values. */
  lemma {:induction false} BoundsHoldThroughout(values: seq<Word64>, steps: seq<Step>, s: Slot)
    requires Runs(Start(values), steps, s)
    ensures s.mins != [] && s.maxs != [] && |s.calls| == |values|
    ensures forall i :: 0 <= i < |values| && PastMin(s.calls[i].pc) ==> Min(s) <= values[i]
    ensures forall i :: 0 <= i < |values| && s.calls[i].pc.Done? ==> values[i] <= Max(s)
    ensures Min(s) == WORD64 - 1 || Min(s) in values
    ensures Max(s) == 0 || Max(s) in values
  {
    StartInv(values);
    RunKeepsInv(Start(values), steps, s);
    assert forall i :: 0 <= i < |values| ==> s.calls[i].value == values[i];
  }

  lemma {:induction false} AllCounted(calls: seq<Call>, values: seq<Word64>)
    requires |calls| == |values| && forall i :: 0 <= i < |calls| ==> calls[i] == Call(values[i], Done)
    ensures SumBy(calls, CountedOne) == |values| && SumBy(calls, SummedValue) == Sum(values)
  {
    if calls != [] {
      var n := |values| - 1;
      AllCounted(calls[..n], values[..n]);
      SumNext(values[..n], values[n]);
      assert values == values[..n] + [values[n]];
    }
  }

  /** Once all calls are done, in whatever interleaving, every field is exact. */
  lemma {:induction false} ExactWhenDone(values: seq<Word64>, steps: seq<Step>, s: Slot)
    requires Runs(Start(values), steps, s)
    requires forall i :: 0 <= i < |s.calls| ==> s.calls[i].pc.Done?
    ensures s.count == Wrap(|values|) && s.sum == Wrap(Sum(values))
    ensures s.mins != [] && s.maxs != []
    ensures if values == [] then Min(s) == WORD64 - 1 && Max(s) == 0
            else IsLeast(Min(s), values) && IsGreatest(Max(s), values)
  {
    StartInv(values);
    RunKeepsInv(Start(values), steps, s);
    BoundsHoldThroughout(values, steps, s);
    AllCounted(s.calls, values);
    hide Inv, Runs, SumBy, Sum;
    assert forall v :: v in values ==> exists i :: 0 <= i < |values| && values[i] == v;
    if values != [] {
      ExtremesAreReached(values, Min(s), Max(s));
    }
  }

  predicate IsLeast(m: Word64, values: seq<Word64>) {
    m in values && forall v :: v in values ==> m <= v
  }

  predicate IsGreatest(m: Word64, values: seq<Word64>) {
    m in values && forall v :: v in values ==> v <= m
  }

  lemma {:induction false} ExtremesAreReached(values: seq<Word64>, least: Word64, greatest: Word64)
    requires values != []
    requires forall i :: 0 <= i < |values| ==> least <= values[i] <= greatest
    requires least == WORD64 - 1 || least in values
    requires greatest == 0 || greatest in values
    ensures IsLeast(least, values) && IsGreatest(greatest, values)
  {
    assert values[0] in values;
  }

  // ----- Termination with strong exchanges -----

  /** A strong exchange fails only on a differing value, and a thread never reads backwards in the history. */
  predicate Strong(s: Slot, t: Step) {
    Enabled(s, t) &&
    match t
    case MissMin(i, k) => k >= s.calls[i].pc.at && s.mins[k] != s.mins[s.calls[i].pc.at]
    case MissMax(i, k) => k >= s.calls[i].pc.at && s.maxs[k] != s.maxs[s.calls[i].pc.at]
    case _ => true
  }

  /** How many steps a call can still take. */
  function Left(mins: seq<Word64>, maxs: seq<Word64>, c: Call): nat {
    match c.pc
    case Ready => 2 * WORD64 + 4
    case Counted => 2 * WORD64 + 3
    case Summed => 2 * WORD64 + 2
    case MinLoop(at) => WORD64 + 1 + if at < |mins| then mins[at] else 0
    case MinDone => WORD64
    case MaxLoop(at) => WORD64 - 1 - if at < |maxs| then maxs[at] else 0
    case Done => 0
  }

  function LeftBy(s: Slot): Call -> nat {
    c => Left(s.mins, s.maxs, c)
  }

  function Budget(s: Slot): nat {
    SumBy(s.calls, LeftBy(s))
  }

  /** The histories are strictly monotone. */
  predicate Monotone(s: Slot) {
    && (forall j, k :: 0 <= j < k < |s.mins| ==> s.mins[j] > s.mins[k])
    && (forall j, k :: 0 <= j < k < |s.maxs| ==> s.maxs[j] < s.maxs[k])
  }

  lemma {:induction false} CallSpends(s: Slot, t: Step)
    requires Strong(s, t) && Monotone(s) && CoveredCall(s.mins, s.maxs, s.calls[t.i])
    ensures Left(Next(s, t).mins, Next(s, t).maxs, Next(s, t).calls[t.i]) < Left(s.mins, s.maxs, s.calls[t.i])
  {
  }

  /** Every strong step, also a failed exchange, spends some of a finite budget. */
  lemma {:induction false} StepSpends(s: Slot, t: Step)
    requires Inv(s) && Strong(s, t)
    ensures Budget(Next(s, t)) < Budget(s)
  {
    var u := Next(s, t);
    assert Monotone(s) && CoveredCall(s.mins, s.maxs, s.calls[t.i]);
    CallSpends(s, t);
    hide Inv, CoveredCall, SumBy, Left, Monotone;
    SumByUpdate(s.calls, LeftBy(u), t.i, u.calls[t.i]);
    assert s.calls[t.i := u.calls[t.i]] == u.calls;
    forall i | 0 <= i < |s.calls|
      ensures LeftBy(u)(s.calls[i]) == LeftBy(s)(s.calls[i])
    {
      LeftIsFixed(s, t, i);
    }
    SumBySame(s.calls, LeftBy(u), LeftBy(s));
  }

  lemma {:induction false} LeftIsFixed(s: Slot, t: Step, i: nat)
    requires Inv(s) && Enabled(s, t) && i < |s.calls|
    ensures Left(Next(s, t).mins, Next(s, t).maxs, s.calls[i]) == Left(s.mins, s.maxs, s.calls[i])
  {
  }

  ghost predicate StrongRun(s: Slot, steps: seq<Step>)
    decreases |steps|
  {
    steps == [] || (Strong(s, steps[0]) && StrongRun(Next(s, steps[0]), steps[1..]))
  }

  /** So no run with strong exchanges can go on for ever: the loops terminate. */
  lemma {:induction false} StrongRunsEnd(s: Slot, steps: seq<Step>)
    requires Inv(s) && StrongRun(s, steps)
    ensures |steps| <= Budget(s)
    decreases |steps|
  {
    hide Inv, Budget;
    if steps != [] {
      StepKeepsInv(s, steps[0]);
      StepSpends(s, steps[0]);
      StrongRunsEnd(Next(s, steps[0]), steps[1..]);
    }
  }

  /** A call that is not done can always take a step. */
  lemma {:induction false} NotStuck(s: Slot, i: nat)
    requires Inv(s) && i < |s.calls| && !s.calls[i].pc.Done?
    ensures exists t: Step :: t.i == i && Strong(s, t)
  {
    hide CoveredCall, Strong;
    OnwardsIsOpen(s, i);
  }

  /** Whatever it does next, a call may have read any value of the history, and an exchange may fail
      whatever it reads, also the expected value. */
  lemma {:induction false} AnyReadIsPossible(s: Slot, i: nat)
    requires Inv(s) && i < |s.calls|
    ensures s.calls[i].pc.Summed? ==> forall k :: 0 <= k < |s.mins| ==> Enabled(s, LoadMin(i, k))
    ensures s.calls[i].pc.MinLoop? ==> forall k :: 0 <= k < |s.mins| ==> Enabled(s, MissMin(i, k))
    ensures s.calls[i].pc.MinDone? ==> forall k :: 0 <= k < |s.maxs| ==> Enabled(s, LoadMax(i, k))
    ensures s.calls[i].pc.MaxLoop? ==> forall k :: 0 <= k < |s.maxs| ==> Enabled(s, MissMax(i, k))
  {
    assert CoveredCall(s.mins, s.maxs, s.calls[i]);
    hide Totals;
  }

  lemma {:induction false} OnwardsIsOpen(s: Slot, i: nat)
    requires s.mins != [] && s.maxs != [] && i < |s.calls| && !s.calls[i].pc.Done?
    requires CoveredCall(s.mins, s.maxs, s.calls[i])
    ensures Onwards(s, i, s.calls[i].pc).i == i && Strong(s, Onwards(s, i, s.calls[i].pc))
  {
  }

  /** A step that is open to call `i`. */
  function Onwards(s: Slot, i: nat, pc: Pc): Step
    requires s.mins != [] && s.maxs != []
  {
    match pc
    case Ready => AddCount(i)
    case Counted => AddSum(i)
    case Summed => LoadMin(i, 0)
    case MinLoop(at) => if at < |s.mins| && s.mins[at] == Min(s) then SwapMin(i) else MissMin(i, |s.mins| - 1)
    case MinDone => LoadMax(i, 0)
    case MaxLoop(at) => if at < |s.maxs| && s.maxs[at] == Max(s) then SwapMax(i) else MissMax(i, |s.maxs| - 1)
    case Done => AddCount(i)
  }
}
