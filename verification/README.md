# Trading building blocks, verified

A Dafny model of the stateful cores of a collection of trading-system components written in C++, with proofs
of what those cores are for. `dafny verify dfyconfig.toml` checks everything.

**Limit order matching engine.** `OrderBook.dfy` states the engine as a value: two price-ordered sides, the
nested matching sweep and the NEW, CANCEL and AMEND commands. `MatchingEngine.dfy` is the engine as it is
written: classes for orders, price levels and the engine, an id index of reference blocks, loops that erase
makers and levels in place. Every method is proved to step exactly like the value model, and the index to name
exactly the resting orders. On the value model, over every command sequence: the sweep serves the flattened
opposite queue in order (`SweepShape.dfy`), it gives the taker the best possible total price
(`SweepEconomy.dfy`) and never a worse one than the simple engine's loop (`SimpleMatching.dfy`), the book stays
sorted, placed, duplicate-free and uncrossed (`BookInvariants.dfy`), each command's effect on the queues
(`BookEffects.dfy`, and in `CommandEffects.dfy` without the functions that compute it), price-time priority (`BookHistory.dfy`) and conservation of quantity (`BookLedger.dfy`).

**Ring of recycled buffers.** `SpscRing.dfy` is a step machine of the connector and the parser thread, in which
a load of the other thread's index may return any value that index has had since the thread last looked.
`Bits.dfy` has the masking arithmetic, `Buffers.dfy` the growing buffer and the receive loop.

**Price ladder.** `PriceItems.dfy`, `PriceLevels.dfy` and `PriceLadder.dfy` are the intrusive doubly linked
lists with cached totals, the id index, and the queries by depth.

**Depth book.** `DepthValues.dfy`, `DepthStreams.dfy` and `FlatMap.dfy` are the bounded sorted array map, the
map it refines, and streams of updates.

**Others.** `Histogram.dfy` (lock-free min/max/sum/count), `ObjectPool.dfy`, `OverwritingRing.dfy`.
`Words.dfy` holds machine words, `Sequences.dfy` sums and reversal.

Integers are unbounded except where the code's width matters: the 32-bit trade quantity, 64-bit volumes and
totals, 32-bit sizes and ring indices are modelled with their wrap-around. Prices and quantities of the depth
book are `real`.

## What the code does not do

These came out of the proofs; the code is modelled as it is.

- Pushing a key into an empty flat map whose leftover slot 0 holds that key is lost, and erasing it makes the
  size wrap to 2^32 - 1 (FlatMap.hpp:94, 115). A side of the depth book that has just been emptied of a price
  loses that price if it comes back first. `DepthStreams.ShowsExactlyUnlessMet` gives the exact condition and
  `DepthStreams.LeftoverFailures` the smallest runs.
- The pool's destructor asserts 10 (2^k - 1) free slots, but k chunks hold 10 (4^k - 1) / 3: the assertion
  holds if and only if k <= 1 (ObjectPool.h:88), that is, if never more than ten objects were out at once.
- Adding an order with an id that is already in the ladder leaves it in its list but not in the index
  (PriceLevelStorage_2.cpp:398).
- A trade stores its quantity in 32 bits, so the log tells the executed quantity if and only if no maker gives
  an order 2^32 or more at once (MatchingEngine.h:33).
- A NEW whose id is taken still matches, and what is left of it is lost without a word
  (MatchingEngine.cpp:115-116); `BookLedger.DroppedExactlyIfTaken` says when.
- The connector's loop ends for good the first time the ring looks full (data_feeder.cpp:140).
- A `recv` that fails is counted as -1 more bytes: it takes the last received byte back, and makes the length
  of an empty buffer 2^32 - 1 (data_feeder.cpp:89-90).
- `getItem` needs the coherence of one atomic: with arbitrarily old tails the ring would hand out the slot the
  consumer reads (`SpscRing.OlderTailWouldCollide`).
- `append` always reallocates to the rounded length, so it can also shrink the capacity (Buffer.cpp:69-74).
- A taker that comes to another maker of a level after running dry logs one more trade, of quantity zero. An
  amend to quantity zero rests an empty order, and a taker that comes to one logs a zero trade too, possibly
  before others. `SweepShape.ZeroTradeExactly` has the exact condition for every book,
  `SweepShape.ZeroTradeExactlyWhenDryInside` the simpler one for books without empty orders.

## Model

| member | source | states |
|---|---|---|
| `SweepShape.SweepIsServed` | MatchingEngine_UnitTests/engine/MatchingEngine.cpp:45-97 | the nested sweep over levels and lists equals one pass over the flattened opposite queue: a prefix of crossing makers is consumed whole, at most the next one is reduced, everything behind keeps quantity and place, the fills are logged in that order |
| `SweepShape.ZeroTradeExactly` | MatchingEngine_UnitTests/engine/MatchingEngine.cpp:65-94 | a trade of quantity zero is logged if and only if, in some level it reaches, the taker comes to a maker without quantity, or comes to a maker when it has run dry itself |
| `SweepShape.ZeroTradeExactlyWhenDryInside` | MatchingEngine_UnitTests/engine/MatchingEngine.cpp:65-94 | if no maker on the side rests with quantity zero, a zero-quantity trade can only be the last one of a command, and is logged if and only if the taker is filled exactly by whole makers while another maker of the same level waits |
| `SweepShape.ZeroTradesHappen` | MatchingEngine_UnitTests/engine/MatchingEngine.cpp:65-94 | one concrete sweep for each of the two zeroes |
| `BookInvariants.ZeroTradeAfterRun` | MatchingEngine_UnitTests/engine/MatchingEngine.cpp:65-94 | after every run without a same-price amend to zero, the condition of `ZeroTradeExactlyWhenDryInside` holds for the next order |
| `SweepEconomy.GreedyIsCheapest` | MatchingEngine_UnitTests/engine/MatchingEngine.cpp:48-60 | filling best price first is no dearer than any other split of the same total within the same capacities |
| `SweepEconomy.SweepTakes` | MatchingEngine_UnitTests/engine/MatchingEngine.cpp:48-60 | the sweep executes min(order quantity, crossing liquidity), leaves the difference, and pays what the greedy split over the levels pays |
| `SweepEconomy.SweepIsOptimal` | MatchingEngine_UnitTests/engine/MatchingEngine.cpp:48-95 | among all allocations of the executed quantity to crossing makers, order by order, a buyer pays least and a seller receives most |
| `SimpleMatching.MatchOrderList` | MatchingEngine/MatchingEngine_Simple.cpp:148-179 | the list loop serves makers first come first, logs a trade for each that names taker and maker on their own sides, and takes exactly the ids of the makers that left out of the index |
| `SimpleMatching.MatchOrder` | MatchingEngine/MatchingEngine_Simple.cpp:137-146 | the lower-bound loop computes the worst-first sweep, its log and its index |
| `SimpleMatching.LowerBound` | MatchingEngine/MatchingEngine_Simple.cpp:140 | with the simple engine's map order, no level before the lower bound crosses and the one there does |
| `SimpleMatching.WorstFirstIsServed` | MatchingEngine/MatchingEngine_Simple.cpp:137-179 | from the lower bound on, makers are served in map order, first come first in a price: a prefix whole, at most the next one in part; the levels before it and all prices stay |
| `SimpleMatching.BestFirstBeatsWorstFirst` | MatchingEngine/MatchingEngine_Simple.cpp:137-179 | both sweeps execute the same total and leave the same residual, and the worst-first one never gives the taker a better total price |
| `BookInvariants.StepGood` | MatchingEngine_UnitTests/engine/MatchingEngine.cpp:109-187 | every command keeps both sides sorted without empty levels, every order at its own price and side, no id twice, best bid below best ask |
| `BookInvariants.RunGood` | MatchingEngine_UnitTests/engine/MatchingEngine.cpp:14-28 | all of that holds after every command sequence |
| `BookInvariants.SweepKeeps` | MatchingEngine_UnitTests/engine/MatchingEngine.cpp:51-60 | a sweep leaves a sorted, placed side without empty levels, and if the taker is not filled, none of it crosses |
| `BookInvariants.FoundOnItsSide` | MatchingEngine_UnitTests/engine/MatchingEngine.cpp:152-156 | an id that is found rests exactly once, on the side of the order found |
| `BookInvariants.StepPositiveUnlessZeroed` | MatchingEngine_UnitTests/engine/MatchingEngine.cpp:81-94 | if no order of quantity zero rests, none does after the command if and only if that is not a same-price amend of a resting order to zero |
| `BookInvariants.RunPositive` | MatchingEngine_UnitTests/engine/MatchingEngine.cpp:109-187 | a run without a same-price amend to zero leaves no order of quantity zero |
| `BookInvariants.AmendToZeroRests` | MatchingEngine_UnitTests/engine/MatchingEngine.cpp:177-184 | such an amend does rest an order without quantity |
| `BookEffects.CancelTakesOneOut` | MatchingEngine_UnitTests/engine/MatchingEngine.cpp:128-159 | a cancel with the right side takes exactly the named order out of its queue and changes nothing else; any other cancel changes nothing |
| `BookEffects.AmendInPlaceOrAnew` | MatchingEngine_UnitTests/engine/MatchingEngine.cpp:161-187 | an amend at the same price changes one quantity and no place; a repricing amend is a cancel followed by a NEW; an unknown id or another side changes nothing |
| `BookEffects.NewServesThenRests` | MatchingEngine_UnitTests/engine/MatchingEngine.cpp:109-126 | a NEW serves the opposite queue, logs that, and puts its residual, if its id is free, behind all makers of its price or a better one and before all others |
| `BookEffects.QueueDeterminesLevels` | MatchingEngine_UnitTests/engine/MatchingEngine.h:98-102 | a sound side is determined by its queue, so the three rows above say everything about the levels |
| `CommandEffects.NewHasEffect` | MatchingEngine_UnitTests/engine/MatchingEngine.cpp:109-126 | a NEW serves the opposite queue; the i-th trade it adds names the order with its price on its own side and the i-th maker with its price on the other, over what the maker had or the order still wanted; the residual rests behind its price unless its id rests already |
| `CommandEffects.CancelHasEffect` | MatchingEngine_UnitTests/engine/MatchingEngine.cpp:148-159 | a cancel of an id in the queue of the named side takes that order out, and the id is then in neither queue; any other changes nothing |
| `CommandEffects.AmendHasEffect` | MatchingEngine_UnitTests/engine/MatchingEngine.cpp:161-187 | an amend of an id in the queue of its side changes the quantity in place at the same price, and is a cancel followed by a new order at another; any other changes nothing |
| `CommandEffects.StepBringsOnlyNew` | MatchingEngine_UnitTests/engine/MatchingEngine.cpp:109-187 | an id comes to rest on a side only by a NEW on that side |
| `CommandEffects.CancelledUntilNew` | MatchingEngine_UnitTests/engine/MatchingEngine.cpp:148-159 | over every run a cancelled id that had not arrived on the other side does not rest until it arrives again |
| `CommandEffects.RunTradesProper` | MatchingEngine_UnitTests/engine/MatchingEngine.cpp:71-79 | every trade of every run has a buy price not below its sell price, its buyer arrived as a buy and its seller as a sell |
| `BookHistory.NewLocation` | MatchingEngine_UnitTests/engine/MatchingEngine.cpp:115-125 | the residual of a NEW is found under its id at its side and price; a NEW that does not rest leaves its id where it was |
| `BookHistory.StepInOrder` | MatchingEngine_UnitTests/engine/MatchingEngine.cpp:109-187 | every command keeps each level in order of arrival at that level; a same-price amend keeps its arrival |
| `BookHistory.RunInOrder` | MatchingEngine_UnitTests/engine/MatchingEngine.cpp:109-187 | after every run each level's list is in order of arrival at that level |
| `BookHistory.BestHasPriority` | MatchingEngine_UnitTests/engine/MatchingEngine.cpp:189-201 | the first order of a side has the best price of all resting there, and of those at that price it arrived first |
| `BookLedger.SweepConserves` | MatchingEngine_UnitTests/engine/MatchingEngine.cpp:71-95 | each fill takes the same amount from taker and maker |
| `BookLedger.NewConserves` | MatchingEngine_UnitTests/engine/MatchingEngine.cpp:109-126 | for a NEW, incoming quantity is executed, rested, or dropped as the residual of a duplicate id |
| `BookLedger.StepConserves` | MatchingEngine_UnitTests/engine/MatchingEngine.cpp:109-187 | per command: resting quantity changes by what arrived less twice what was executed, what was dropped and what was withdrawn |
| `BookLedger.RunConserves` | MatchingEngine_UnitTests/engine/MatchingEngine.cpp:14-28 | the same balance over every run from the empty book |
| `BookLedger.DroppedExactlyIfTaken` | MatchingEngine_UnitTests/engine/MatchingEngine.cpp:109-116 | a NEW loses its residual if and only if, in the book before it, it wants more than all crossing makers have and its id rests on its own side or behind the crossing makers; it then loses exactly the difference |
| `BookLedger.AmendDropsNothing` | MatchingEngine_UnitTests/engine/MatchingEngine.cpp:171-176 | an amend never loses a residual |
| `BookLedger.StepLogs` | MatchingEngine_UnitTests/engine/MatchingEngine.h:33-54 | per command, the logged quantities add up to the executed ones if and only if, in the book before it, each crossing maker the order comes to while it still wants something would give it less than 2^32 |
| `BookLedger.RunLogs` | MatchingEngine_UnitTests/engine/MatchingEngine.cpp:71-79 | the same equivalence for the trade log of a whole run, asked of the book before each command |
| `BookLedger.SmallOrdersFit` | MatchingEngine_UnitTests/engine/MatchingEngine.cpp:71-79 | if every NEW and AMEND has a quantity below 2^32, the log shows the whole executed quantity, however much rests |
| `BookLedger.LargeTradeIsNotLogged` | MatchingEngine_UnitTests/engine/MatchingEngine.h:33-54 | two orders of 2^32 trade in full and the log shows nothing |
| `Engine.MatchingEngine.MatchFront` | MatchingEngine_UnitTests/engine/MatchingEngine.cpp:67-94 | one round of the list loop: a trade that names taker and maker on their own sides is logged, quantities moved, maker erased from list and index, or reduced |
| `Engine.MatchingEngine.MatchOrderList` | MatchingEngine_UnitTests/engine/MatchingEngine.cpp:63-97 | the list loop leaves the list, taker, log and index the value model prescribes, and tells whether the level is empty |
| `Engine.MatchingEngine.MatchSide` | MatchingEngine_UnitTests/engine/MatchingEngine.cpp:43-61 | the level loop over a side, with its erasures, is the sweep; the other side is untouched |
| `Engine.MatchingEngine.MatchOrder` | MatchingEngine_UnitTests/engine/MatchingEngine.cpp:30-41 | matching sweeps the opposite side and returns the remaining quantity |
| `Engine.MatchingEngine.RestOrder` | MatchingEngine_UnitTests/engine/MatchingEngine.cpp:115-125 | the residual is appended to its price level, made if missing, and indexed; the engine owns nothing more than that order and new levels |
| `Engine.MatchingEngine.HandleOrderNew` | MatchingEngine_UnitTests/engine/MatchingEngine.cpp:109-126 | book, log and index after a NEW are those of the value model, the duplicate-id case included |
| `Engine.MatchingEngine.CancelOrderById` | MatchingEngine_UnitTests/engine/MatchingEngine.cpp:128-146 | the order leaves list and index, and its level leaves the map if that empties it |
| `Engine.MatchingEngine.HandleOrderCancel` | MatchingEngine_UnitTests/engine/MatchingEngine.cpp:148-159 | the whole command, with its guards |
| `Engine.MatchingEngine.HandleOrderAmend` | MatchingEngine_UnitTests/engine/MatchingEngine.cpp:161-187 | the whole command, with its four cases |
| `Engine.MatchingEngine.ProcessOrder` | MatchingEngine_UnitTests/engine/MatchingEngine.cpp:14-28 | for each action, its effect on the two queues and the log as the three rows of `CommandEffects` say it, a cancelled id leaving the index; the heap engine steps like the value model, keeps the exact agreement of index, lists and price maps, and comes to own at most the order and new levels |
| `Engine.ActionTakes` | MatchingEngine_UnitTests/engine/MatchingEngine.cpp:17-27 | NEW, CANCEL and AMEND run the command of their name, the recovery actions none |
| `Engine.ProcessAll` | MatchingEngine_UnitTests/engine/MatchingEngine.cpp:14-28 | a new engine given any sequence of distinct orders is, after each of them, in the state of the value model's run, with index, lists and maps in exact agreement; a cancelled id is not in the index until it comes again; each trade is at a price both accept, between one that came as a buy and one that came as a sell |
| `Engine.MatchingEngine.GetBestBuyOrder` | MatchingEngine_UnitTests/engine/MatchingEngine.cpp:189-194 | the first order of the best bid level, or none exactly if there is no bid |
| `Engine.MatchingEngine.GetBestSellOrder` | MatchingEngine_UnitTests/engine/MatchingEngine.cpp:196-201 | the first order of the best ask level, or none exactly if there is no ask |
| `Bits.FastModuloIsMod` | MarketDataFeeders/common/Common.hpp:17-19 | masking with d - 1 is the remainder for every power of two d |
| `Bits.PowerHasOneBit` | MarketDataFeeders/common/Common.hpp:21-23 | the one-bit test accepts every power of two |
| `Bits.OneBitIsPower` | MarketDataFeeders/common/Common.hpp:21-23 | the one-bit test accepts nothing else |
| `SpscRing.GapTest` | MarketDataFeeders/common/RingBuffer.hpp:269-278 | `headNext == tail`, on any tail value that may be loaded, holds exactly when all slots but one are in use as far as the producer knows, and then refuses the slot just before that tail |
| `SpscRing.EmptyTest` | MarketDataFeeders/common/RingBuffer.hpp:286-291 | `tail == head`, on any head value that may be loaded, holds exactly when that head equals the number of pops |
| `SpscRing.StepKeeps` | MarketDataFeeders/common/RingBuffer.hpp:269-297 | every atomic step of either thread keeps the ring invariant |
| `SpscRing.RunInv` | MarketDataFeeders/common/RingBuffer.hpp:249-297 | the invariant holds in every interleaving, with stale loads |
| `SpscRing.NeverTheSameSlot` | MarketDataFeeders/common/RingBuffer.hpp:269-297 | the slot the producer holds is never the slot the consumer popped and has not cleared, although pop publishes the tail first |
| `SpscRing.ClaimedBufferIsClean` | MarketDataFeeders/data_feeder.cpp:139-144 | the buffer the producer claims is empty, and what it holds comes from this claim only |
| `SpscRing.CommittedIsReceived` | MarketDataFeeders/data_feeder.cpp:85-93 | by the steps alone: each committed message is the bytes of all reads since the commit before, in order |
| `SpscRing.HeldBufferIsReceived` | MarketDataFeeders/data_feeder.cpp:85-93 | the buffer under way holds the bytes of all reads since the last commit, and nothing else |
| `SpscRing.ParsedIsPrefix` | MarketDataFeeders/data_feeder.cpp:139-162 | the parsed messages are always a prefix of the messages received, in order and byte for byte, at most one ring full behind what is committed |
| `SpscRing.ReadingIsReceived` | MarketDataFeeders/data_feeder.cpp:157-160 | what the parser has read of a buffer is the start of the next message received |
| `SpscRing.PopRefusedExactly` | MarketDataFeeders/common/RingBuffer.hpp:288-291 | a pop returns null exactly if the head it loaded is the one its own pops have come to |
| `SpscRing.ThreadsGoOn` | MarketDataFeeders/data_feeder.cpp:139-170 | in every run the parser, and the connector unless it has stopped, can take a step, and a load may return any value since the last one seen |
| `SpscRing.EmptyMeansAllParsed` | MarketDataFeeders/common/RingBuffer.hpp:288-291 | a pop that sees the current head returns null exactly when everything committed has been parsed |
| `SpscRing.StoppedExactlyIfOnceFull` | MarketDataFeeders/data_feeder.cpp:139-144 | in every run the connector's loop has ended if and only if some load of the tail once made the ring look full; nothing is committed after that |
| `SpscRing.TwoSlotsStop` | MarketDataFeeders/data_feeder.cpp:139-144 | a concrete run in which the connector's loop ends with a message unread |
| `SpscRing.StaleTailStops` | MarketDataFeeders/common/RingBuffer.hpp:273 | a concrete run in which a stale tail ends the connector's loop although the slot is free |
| `SpscRing.OlderTailWouldCollide` | MarketDataFeeders/common/RingBuffer.hpp:273 | a concrete run in which a tail older than one already seen would grant the slot being read |
| `Buffers.RoundUpIsLeast` | MarketDataFeeders/common/Buffer.cpp:130-132 | from 1 to 2^31, the least power of two that is not below the argument |
| `Buffers.RoundUpDoubles` | MarketDataFeeders/common/Buffer.cpp:123-136 | asking for more than a power-of-two capacity at least doubles it |
| `Buffers.Buffer.EnsureCapacity` | MarketDataFeeders/common/Buffer.cpp:134-143 | the stored bytes survive the move to the block of rounded capacity |
| `Buffers.Buffer.Tail` | MarketDataFeeders/common/Buffer.cpp:87-91 | leaves at least n free bytes, keeps the stored prefix, and at least doubles a power-of-two capacity whenever it grows |
| `Buffers.Buffer.Append` | MarketDataFeeders/common/Buffer.cpp:69-74 | the bytes follow the stored ones, in a new block; the capacity becomes the rounded length |
| `Buffers.Buffer.IncrementLength` | MarketDataFeeders/common/Buffer.cpp:119-121 | the length grows modulo 2^32 with no test; what is stored stays a prefix, or is cut to one, as long as the length does not exceed the capacity |
| `Buffers.ReceiveOnce` | MarketDataFeeders/data_feeder.cpp:87-91 | one read appends its bytes; a failed one takes the last stored byte back, or makes the length of an empty buffer 2^32 - 1 |
| `Buffers.GetData` | MarketDataFeeders/data_feeder.cpp:85-93 | the receive loop appends all reads up to the first that is not full, byte for byte, however often the buffer grows, and that last one has the effect of `ReceiveOnce`; the block is the old one or new, and the capacity is bounded by the old one or by what is stored |
| `Buffers.RecycleBuffer` | MarketDataFeeders/data_feeder.cpp:139-162 | one buffer through any number of laps of receive, parse, clear: each lap shows exactly its own message |
| `PriceLevels.PriceLevel.Link` | Collection/PriceLevels/PriceLevelStorage_2.cpp:199-208 | the new order closes the chain at the tail |
| `PriceLevels.PriceLevel.Unlink` | Collection/PriceLevels/PriceLevelStorage_2.cpp:214-229 | the chain closes over the removed order, whether head, middle, tail or sole: prev and next stay inverse and reach every remaining order once, in order |
| `PriceLevels.PriceLevel.AddOrder` | Collection/PriceLevels/PriceLevelStorage_2.cpp:196-210 | arrival order, back pointers and the wrapped cached total are kept |
| `PriceLevels.PriceLevel.RemoveOrder` | Collection/PriceLevels/PriceLevelStorage_2.cpp:212-230 | exactly that order leaves; arrival order of the others, back pointers and cached total are kept |
| `PriceLevels.PriceLevel.HasOrdersOfSide` | Collection/PriceLevels/PriceLevelStorage_2.cpp:264-275 | true exactly if some order of the list has the side |
| `PriceLevels.PriceLevel.GetVolumeBySide` | Collection/PriceLevels/PriceLevelStorage_2.cpp:277-289 | the wrapped volume of the side's orders |
| `PriceLadders.PriceLadder.constructor` | Collection/PriceLevels/PriceLevelStorage_2.cpp:299-318 | with 0 < min <= max < 2^64 - 1 all three loops end with one new empty level per tick, listed down for bids and up for asks |
| `PriceLadders.PriceLadder.AddOrder` | Collection/PriceLevels/PriceLevelStorage_2.cpp:394-399 | the order joins the back of its price's queue, every other queue is unchanged; index and levels still agree if and only if no standing order has its id |
| `PriceLadders.PriceLadder.RemoveOrder` | Collection/PriceLevels/PriceLevelStorage_2.cpp:401-405 | the order leaves its queue and the index; every other queue and place is unchanged, and agreement is kept |
| `PriceLadders.DuplicateIdIsNotIndexed` | Collection/PriceLevels/PriceLevelStorage_2.cpp:394-399 | two orders with one id: the second stands in its list and is not in the index |
| `PriceLadders.PriceLadder.ModifyOrderVolume` | Collection/PriceLevels/PriceLevelStorage_2.cpp:407-412 | one volume changes, no place, and the cached total follows through two wrapping steps |
| `PriceLadders.PriceLadder.FindOrder` | Collection/PriceLevels/PriceLevelStorage_2.cpp:414-418 | under agreement, the one standing order with the id, or null exactly if there is none |
| `PriceLadders.PriceLadder.AtDepth` | Collection/PriceLevels/PriceLevelStorage_2.cpp:334-392 | the scan returns the level with exactly `depth` live levels before it, or null |
| `PriceLadders.PriceLadder.FirstLive` | Collection/PriceLevels/PriceLevelStorage_2.cpp:442-462 | the scan for the best level returns the first live one, or null |
| `PriceLadders.PriceLadder.GetBidPriceAtDepth` | Collection/PriceLevels/PriceLevelStorage_2.cpp:478-490 | the bid price of that rank, and 0 exactly if it is out of range |
| `PriceLadders.PriceLadder.GetAskPriceAtDepth` | Collection/PriceLevels/PriceLevelStorage_2.cpp:492-505 | the ask price of that rank, and 2^64 - 1 exactly if it is out of range |
| `PriceLadders.PriceLadder.GetBidVolumeAtDepth` | Collection/PriceLevels/PriceLevelStorage_2.cpp:507-520 | the wrapped buy volume of the level whose price is the bid at that depth, 0 out of range of the bids |
| `PriceLadders.PriceLadder.GetAskVolumeAtDepth` | Collection/PriceLevels/PriceLevelStorage_2.cpp:522-535 | the wrapped sell volume of the level whose price is the ask at that depth, 0 out of range of the asks |
| `PriceLadders.PriceLadder.GetBestBidVolume` | Collection/PriceLevels/PriceLevelStorage_2.cpp:464-469 | the wrapped buy volume at the best bid, 0 if there is none |
| `PriceLadders.PriceLadder.GetBestAskVolume` | Collection/PriceLevels/PriceLevelStorage_2.cpp:471-476 | the wrapped sell volume at the best ask, 0 if there is none |
| `PriceLadders.PriceLadder.GetBestBid` | Collection/PriceLevels/PriceLevelStorage_2.cpp:420-429 | the bid at depth 0, or 0 |
| `PriceLadders.PriceLadder.GetBestAsk` | Collection/PriceLevels/PriceLevelStorage_2.cpp:431-440 | the ask at depth 0, or 2^64 - 1 |
| `PriceItems.BidsFall` | Collection/PriceLevels/PriceLevelStorage_2.cpp:478-490 | bids by depth are exactly the prices with a buy order, strictly falling |
| `PriceItems.AsksRise` | Collection/PriceLevels/PriceLevelStorage_2.cpp:492-505 | asks by depth are exactly the prices with a sell order, strictly rising |
| `PriceItems.BidVolumeAtPrice` | Collection/PriceLevels/PriceLevelStorage_2.cpp:478-520 | bid price and volume at one depth belong to one level |
| `PriceItems.AskVolumeAtPrice` | Collection/PriceLevels/PriceLevelStorage_2.cpp:492-535 | ask price and volume at one depth belong to one level |
| `PriceItems.DepthsMakeTotals` | Collection/PriceLevels/PriceLevelStorage_2.cpp:507-535 | bid and ask volumes over all depths add up to the cached totals of the levels (modulo 2^64) |
| `PriceLadders.PriceLadder.OneVolume` | Collection/PriceLevels/PriceLevelStorage_2.cpp:394-412 | volumes by depth, cached totals and the volume of all indexed orders are the same number (modulo 2^64) |
| `PriceLadders.EditLadder` | Collection/PriceLevels/PriceLevelStorage_2.cpp:394-418 | a new ladder after any sequence of adds under unused ids, removals and volume changes: lists, totals and index are sound, agree, and hold exactly the ids that should be there |
| `FlatMaps.FlatMap.FindInsertIndex` | MarketDepthBook/FlatMap.hpp:158-170 | the binary search returns the lower bound, for both orderings |
| `FlatMaps.FlatMap.ShiftIn` | MarketDepthBook/FlatMap.hpp:98-103 | the shifting loop inserts at the index, the last entry falling off a full array |
| `FlatMaps.FlatMap.Push` | MarketDepthBook/FlatMap.hpp:83-105 | the array stays strictly sorted and shows the bounded map's push, unless an empty map's leftover slot swallows the key; the returned slot holds the key, or is null exactly if the key is not stored |
| `FlatMaps.FlatMap.Erase` | MarketDepthBook/FlatMap.hpp:107-124 | exactly the key is erased if present, nothing otherwise, unless the leftover slot of an empty map matches and the size wraps |
| `DepthValues.InsertedRowIsPush` | MarketDepthBook/main.cpp:477-485 | inserting at the sorted place and cutting the row is: insert into the map if absent, then drop the worst key if that makes one too many |
| `DepthValues.OneListing` | MarketDepthBook/FlatMap.hpp:83-124 | a map has one sorted listing, so the map shown determines the array |
| `FlatMaps.FlatMap.GetBestPrice` | MarketDepthBook/MarketDepthBook.hpp:42-52 | the best key of the map with its value, or none exactly if the map is empty |
| `FlatMaps.FlatMap.HandlePriceUpdate` | MarketDepthBook/MarketDepthBook.hpp:28-40 | zero erases just that price; another quantity is stored at a stored price, at a new one if there is room, and on a full side exactly if the price is better than the worst, which alone then leaves; the leftover slot of an empty side excepted |
| `FlatMaps.MarketDepthBook.GetBestBid` | MarketDepthBook/MarketDepthBook.hpp:62-65 | the highest stored bid price with its quantity, or none exactly if there is none |
| `FlatMaps.MarketDepthBook.GetBestAsk` | MarketDepthBook/MarketDepthBook.hpp:67-70 | the lowest stored ask price with its quantity, or none exactly if there is none |
| `FlatMaps.MarketDepthBook.HandleUpdate` | MarketDepthBook/main.cpp:101-110 | an update reaches its own side only |
| `FlatMaps.MarketDepthBook.HandleEvents` | MarketDepthBook/main.cpp:112-118 | a stream of events folds each side's own updates in order, up to and including one that makes a size wrap |
| `FlatMaps.BestAfter` | MarketDepthBook/MarketDepthBook.hpp:42-70 | a new book after a stream of events: a side that never has more live prices than fit and never gets the price that emptied it last while it is empty has as its best price the extreme key of the unbounded map of its updates, with its latest quantity; of the other side it asks only that no update reaches it after its size has wrapped |
| `DepthStreams.PushKeepsBest` | MarketDepthBook/main.cpp:477-485 | one bounded push keeps holding exactly the n best of all distinct keys seen |
| `DepthStreams.PushesKeepTheBest` | MarketDepthBook/FlatMap.hpp:83-105 | after every insert-only stream: exactly the n best distinct keys, each with its first value; for positive keys the whole stream counts |
| `DepthStreams.LeadingZeroesAreLost` | MarketDepthBook/FlatMap.hpp:94-96 | pushes of key 0 at the very start are lost to the zeroed slot 0 |
| `DepthStreams.EvictedNeverReturns` | MarketDepthBook/FlatMap.hpp:83-105 | a key that was pushed and evicted is never stored again |
| `DepthStreams.StoredIsLatest` | MarketDepthBook/MarketDepthBook.hpp:28-60 | after every update stream a stored price carries the quantity of its latest update, which is not zero |
| `DepthStreams.UpdateApplies` | MarketDepthBook/FlatMap.hpp:94-104 | that effect for every side, full or not |
| `DepthStreams.BetterIsBest` | MarketDepthBook/FlatMap.hpp:94-104 | after any stream, evictions and all, an update at a price better than all that is stored is stored and is the best price |
| `DepthStreams.PushesKeepExtremes` | MarketDepthBook/FlatMap.hpp:83-105 | in numbers: every key kept by a bid side is higher, by an ask side lower, than every key pushed and not kept |
| `DepthStreams.UnboundedIsLatest` | MarketDepthBook/MarketDepthBook.hpp:33-39 | the unbounded map holds a price exactly if its latest quantity is not zero, with that quantity |
| `DepthStreams.ShowsExactlyUnlessMet` | MarketDepthBook/MarketDepthBook.hpp:28-60 | while a side never has more live prices than fit, it equals the unbounded map after every update if and only if no update of the empty side has the price that emptied it last (zero at first), a condition on the stream alone |
| `DepthStreams.LeftoverFailures` | MarketDepthBook/FlatMap.hpp:94-122 | add, erase, add again: the price is lost; add, erase, erase again: the size wraps |
| `Histogram.StepKeepsInv` | CommonModules/metrics/MetricsControllerEx.cpp:94-113 | every atomic step keeps: min falls and max rises only to recorded values, calls past a loop are covered, totals are right |
| `Histogram.BoundsHoldThroughout` | CommonModules/metrics/MetricsControllerEx.cpp:103-112 | in every interleaving, a call past its loops lies between min and max, and these are initial or recorded values; loads and failed exchanges may be stale, exchanges may fail spuriously |
| `Histogram.ExactWhenDone` | CommonModules/metrics/MetricsControllerEx.cpp:94-113 | once all calls are done count and sum (modulo 2^64), min and max are exactly those of the recorded values |
| `Histogram.StepSpends` | CommonModules/metrics/MetricsControllerEx.cpp:103-112 | with strong exchanges every step, also a failed one, makes strict progress |
| `Histogram.StrongRunsEnd` | CommonModules/metrics/MetricsControllerEx.cpp:103-112 | so no run is longer than a bound known at its start: the loops terminate |
| `Histogram.NotStuck` | CommonModules/metrics/MetricsControllerEx.cpp:94-113 | a call that is not done can always take a step |
| `Histogram.AnyReadIsPossible` | CommonModules/metrics/MetricsControllerEx.cpp:103-112 | loads and failed exchanges may return any value of the history, the expected one included |
| `ObjectPools.ObjectPool.AddChunk` | MatchingEngine_UnitTests/common/ObjectPool.h:41-54 | with none free, a chunk is added, all its slots become free, and capacity stays 10 (4^k - 1) / 3 |
| `ObjectPools.ObjectPool.AcquireObject` | MatchingEngine_UnitTests/common/ObjectPool.h:108-125 | hands out a slot nobody has; free and handed-out slots stay a partition of all slots |
| `ObjectPools.ObjectPool.Release` | MatchingEngine_UnitTests/common/ObjectPool.h:61-72 | the slot becomes free and is the next to be handed out |
| `ObjectPools.ObjectPool.AssertionHoldsUpToOneChunk` | MatchingEngine_UnitTests/common/ObjectPool.h:84-88 | with everything returned, the destructor's assertion holds if and only if there is at most one chunk, which is if and only if never more than ten objects were out at once |
| `ObjectPools.UsePool` | MatchingEngine_UnitTests/common/ObjectPool.h:84-125 | the same for every sequence of acquires and releases from a new pool, with the peak counted from the sequence alone |
| `ObjectPools.AssertionFailsAtTwoChunks` | MatchingEngine_UnitTests/common/ObjectPool.h:84-88 | eleven objects at once, all returned: the assertion fails |
| `OverwritingRing.RingBuffer.Put` | CommonModules/ring_buffer_ex/RingBufferEx.cpp:47-57 | the contents read from `idxRead` are the queue after a put that drops the oldest when full |
| `OverwritingRing.RingBuffer.Get` | CommonModules/ring_buffer_ex/RingBufferEx.cpp:59-69 | fetches the oldest, or leaves the caller's variable alone exactly if the queue is empty |
| `OverwritingRing.RingBuffer.IsEmpty` | CommonModules/ring_buffer_ex/RingBufferEx.cpp:71-79 | where the indices meet, the flag tells full from empty exactly |
| `OverwritingRing.EveryPutLeavesOnceInOrder` | CommonModules/ring_buffer_ex/RingBufferEx.cpp:47-69 | over every put/get sequence, what was fetched or overwritten followed by what is there is exactly what was put, in order |
| `OverwritingRing.ContentsAreLatest` | CommonModules/ring_buffer_ex/RingBufferEx.cpp:47-69 | the contents are always the last values put, and without gets as many of them as fit |

## Left out

- The level's `quantity` field of the matching engine: fills do not change it, so it states nothing; the price ladder's cached total carries that property.
- The bid/ask `flat_map::erase` iterator at MatchingEngine.cpp:56 is taken to continue at the next level, as it must be meant; the code goes on using the erased iterator.
- `cancelOrder` reads order and block after erasing them (MatchingEngine.cpp:133-145); the model takes the values first.
- `SimpleMatching.MatchOrder`: the lists are values here, in place of list nodes; the simple engine's other commands.
- `SpscRing.RunInv`: weak memory only as stale but coherent loads of the two indices; buffer contents are sequentially consistent, which acquire and release provide.
- `Buffers.GetData`: growth beyond a capacity of 2^31, where the rounding shift is undefined. `SpscRing.RunInv` has reads that deliver bytes only.
- `Buffers.Buffer.Tail`, `Buffers.Buffer.Append`: capacities above 2^31, where the rounding shift is undefined; copy and move of buffers.
- `PriceLadders.PriceLadder.AddOrder`: prices outside the ladder's range index out of bounds in the code and are excluded, as is removing an order that is in no level.
- `FlatMaps.FlatMap.FindInsertIndex`: capacity 0 (slot 0 does not exist) and capacities above 2^31 (the midpoint sum wraps) are excluded.
- `FlatMaps.MarketDepthBook.HandleEvents`: an update of a side whose size has wrapped reads outside the array and is excluded.
- Floating point: NaN, rounding, midpoint and spread of the depth book.
- `Histogram.ExactWhenDone`: counters, gauges, the validity guard and a reset running beside `record`.
- `ObjectPools.ObjectPool.AcquireObject`: construction and destruction of objects, allocation failure, and moving a pool.
- Thread pinning, sleeping and stopping; sockets, sessions and parsers; logging and load measurements; the other rings and engine variants, which repeat these cores.
