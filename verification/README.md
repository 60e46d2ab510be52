# Verified models of psibase's core

A Dafny model of the hardest parts of psibase: memory reclamation in triedent, the translation of DWARF
debug data, the printing of floating-point numbers, fracpack schemas and their parser, and light-client
validation with its snapshots. Each part is modelled branch for branch from the C++ (or C) source, and
what it is for is proved of every input, every run or every reachable state.

`dafny verify dfyconfig.toml` checks the whole project. The modules are grouped by component:

- **Grace periods** (`GcRing`, `GcProtocol`, `GcQueue`): the circular queue of delayed destructors and its
  protocol with the sessions of reading threads. `GcProtocol` is a state machine over the atomic steps of
  all threads; `GcQueue` is the queue as an object.
- **Regions**: allocation, deallocation, evacuation, delayed frees and doubling, as a state machine over the
  critical sections. `RegionChunks`, `RegionState`, `RegionSwitch`, `RegionSlots` and `RegionRuns` are about
  counters, sets of regions and the slots of the evacuation queue; `RegionTiles`, `RegionWalk`, `RegionMemory`, `RegionUpkeep`, `RegionEvacuate`, `RegionTurn`
  and `RegionHistory` add what is written in the file, the walk of an evacuation from header to header, and the
  sessions that read. `RegionUnsafe`, `RegionLoss` and `RegionClash` hold runs that go wrong; `RegionAllocator` is
  the allocator as an object.
- **Cache** (`RingPointer`, `RingAllocator`, `Cache`, `CacheRuns`, `ColdCache`): ring buffers with a phase bit,
  the cache that moves objects between them while sessions read, and the cache together with its cold file.
- **DWARF** (`Leb128`, `DwarfMachine`, `DwarfTranslate`, `DwarfSimulation`, `DwarfLines`): location
  expressions, compiled from a 32-bit stack machine to a 64-bit one, and line programs. The stack machine is
  that of section 2.5.1 of DWARF Version 4, the line machine that of section 6.2.5.
- **Grisu** (`GrisuFp`, `GrisuTable`, `GrisuAccuracy`, `GrisuDigits`, `GrisuBounds`, `Grisu`, `GrisuEmit`):
  from the bits of a double to its text.
- **Schemas** (`SchemaMatch`, `SchemaLayout`, `SchemaCompile`, `FracSchema`): compilation of recursive types
  and the comparison of compiled ones.
- **Fracpack** (`FracWire`, `FracMachine`, `FracSane`, `FracTrace`, `FracCanonical`, `FracComplete`, `FracCover`,
  `FracEmpty`, `FracRefused`, `FracWide`, `FracGap`, `FracFault`, `FracMisread`, `FracEnds`, `FracParser`): when a
  buffer holds a value, the parser with its stack of readers, and the exact conditions under which they agree.
- **Time points** (`Calendar`, `TimePoint`, `TimeCodec`): integers, calendar dates and text.
- **Light client** (`LightClient`, `LightSnapshot`, `LightOrder`): the validator of consensus changes, the
  blocks that a snapshot keeps for it, and the order in which it accepts them.

Integers that can wrap around or overflow are modelled with explicit bounds (`Wrap`, `u64`, remainders). Where a
check of the source excludes a wrap-around, positions are natural numbers. The check before a pointer of a packed
buffer is read does not: it is a difference of 32 bits, and is modelled as one.

## Main results

- **A session is safe.** In every interleaving, while a session holds its lock, nothing pushed after it took
  the lock is destroyed (`GcProtocol.GracePeriod`), and the queue is a FIFO (`Fifo`).
- **The cold file loses nothing.** In every run from a fresh file that is spared three things, objects and fillers
  are written, copied and moved only to where nothing is that is live, about to be deallocated or read by a session;
  a region that is reused holds none of these; and an evacuation leaves no live object behind
  (`RegionHistory.RunSafe`). Each of the three is exact for what it keeps. The walk of an evacuation comes by everything in its source, whatever bytes lie between
  headers, if and only if no piece of it is larger than a header can tell (`RegionHistory.EvacuationExactly`).
  A doubling keeps the invariant if and only if what is outstanding in empty regions fits the counters of
  their neighbours (`RegionSwitch.DoubleInvExactly`). A push into the evacuation queue keeps it if and only if there
  are fewer items than slots (`RegionSlots.PushExactly`); with as many, the slot of the front is taken as soon as its
  copies are complete, whether they are accounted for or not (`RegionSlots.RingFree`). Without the three, concrete
  runs from a fresh file lead to a free region that holds a live object (`RegionLoss.LiveObjectLost`,
  `RegionUnsafe.LiveObjectReused`), or to a filler over one (`RegionClash.HeaderOverwritten`).
- **The cache is a map.** After every such run of the cache and its cold file, it holds what was created and not
  released, byte for byte, and what a session has read stays as it is (`ColdCache.RunRefines`, `RunHeld`). That
  the cold file gives out places where nothing is, is proved and not assumed (`ColdCache.ColdIsFresh`), and so is
  that the swap thread has come by everything that is alive in what it gives up (`CacheRuns.WalkFrees`). Rings have
  a multiple of 8 bytes: the dummy object at the end of a ring ends there if and only if they do
  (`RingPointer.DummyExactly`).
- **Translated expressions compute the same.** (`DwarfSimulation.TranslationCorrect`), except for `mod` and
  `fbreg`, for which the exact conditions are proved.
- **Printed doubles can be read back.** For every finite double other than zero, the text denotes a decimal
  in its rounding interval, without any assumption on the table of cached powers: their accuracy is proved
  (`GrisuAccuracy.PowersAccurate`, `Grisu.Grisu2`, `GrisuEmit.Dtoa`, `IdentifiesOne`).
- **What the fracpack parser accepts.** A buffer holds, from end to end, the value that some items describe if and
  only if it is valid with these items and the fixed data of every object that is read reaches each pointer that is
  not optional (`FracComplete.ValidExactly`). Such a buffer is the only one with its items, if and only if nested data
  cannot be empty (`FracEmpty.CanonicalExactly`), and each of its bytes is used once (`FracCover.ValidCovers`). In a
  schema in which no option precedes a pointer that is not optional, every valid buffer is such a one
  (`FracGap.GaplessProper`), so there the parser accepts exactly the encodings (`FracGap.GaplessExactly`), and reads
  nothing outside of any buffer (`FracFault.GaplessInside`). In another one it may accept two buffers with the same
  items, or read outside of a buffer (`FracMisread.GapAccepted`). Structs are read with the low 16 bits of their size:
  the encoding of a value is accepted if and only if its structs have fewer than 65536 bytes
  (`FracWide.WideExactly`). The parser ends on every buffer, and gives exactly one of its answers
  (`FracParser.Validate`). What the schema compiler makes is what all this relies on (`FracSchema.CompiledIsWire`,
  `CompiledIsFounded`).
- **A snapshot suffices for the light client**, if and only if no accepted change commits a block beyond its
  end in a way that loses that end (`LightSnapshot.SnapshotSuffices`).

## Where the code falls short

These are facts about the source as it is. Each is stated by a member with a concrete input or an exact
condition.

- `translate_expr` sign-extends the operands of the unsigned `mod`. The result is right exactly when
  `a < 2^31`, or `b >= 2^31`, or `b` divides `2^64 - 2^32`. Frame offsets (`fbreg`) are right exactly when
  they do not leave the 32-bit address space.
- `write_line_program` gives a row no end of its own: code between two ranges is attributed to the first.
- The queue masks an unlocked session to 2^31 - 1, which orders after every position only up to 2^30 slots.
- `double_region_size` adds counters, but an empty region may still have a deallocation outstanding, which is
  then subtracted from its neighbour. The exact condition is `RegionSwitch.DoublingExactly`.
- `push_queue` takes a slot for free once its source is walked and its range is full, and `run_one` accounts for the
  evacuation only after that, from the slot. With 32 items the slot can be that of the running evacuation: the
  accounting then goes on with another item, writes a filler over what lies behind the range, borrows from the
  target's counter, and marks the other item as done (`RegionClash.HeaderOverwritten`). The exact condition is
  `RegionSlots.RingFree`.
- `run_one` fills an excess with headers of at most 2^24 bytes; the loop for larger ones is never entered, so the
  header reaches the end of the range exactly up to 2^24 bytes. A later `evacuate_region` of that range goes on
  from bytes that are not a header, and can pass over a live object, whose region is then freed
  (`RegionLoss.LiveObjectLost`). The exact condition is `RegionWalk.WalkExactly`.
- `check_contiguous_free_space` gives the dummy object at the end of a ring a size that is rounded up to a multiple of
  8, so in a ring of another size `alloc_p` passes the end without wrapping; with fewer than 8 bytes left, the 24-bit
  field of its header underflows (`RingPointer.DummyExactly`, `DummyPasses`).
- `round_digit` can take the last digit to zero, when the digits reach the lower boundary exactly. The condition
  is exact (`GrisuDigits.GenerateDigits`), and the double 4.51298886875e-277 meets it (`Grisu.DigitTakenToZero`).
- Sums of member sizes are 32-bit: a struct whose members take 2^32 bytes lays out the next at the start, and
  compiles without an error (`SchemaCompile.WrappedOffset`).
- `ObjectReader` and `push` keep 16 bits of the size of a struct, and the compiler accepts larger ones: a struct of
  16384 options is read from the empty buffer (`FracWide.WideAccepted`).
- `unpack_numeric` compares a difference of 32 bits, which wraps around when the position is behind the end. When the
  fixed data of an object ends before an option, the pointer of a member behind the option is therefore read behind
  the fixed data: a buffer of 19 bytes is accepted with the items of one of 27 bytes (`FracMisread.TwoBuffers`), and a
  buffer of 2 bytes makes the parser read outside of it (`FracMisread.ReadsOutside`). The exact condition for a buffer
  is `FracComplete.ValidExactly`; that for schemas is `FracGap.GaplessProper`, one way.
- `push` divides by the size of an element, which may be zero: some buffer of a schema makes it divide by zero if and
  only if the schema has a list of such elements (`FracFault.DividesExactly`).
- Nested data of size zero makes the parser skip to the end of its data, so any bytes may follow.
- `ObjectReader` keeps its note of an absent option over members of fixed size, so an object in which an absent
  option is followed only by fixed data is refused, although nothing that is absent trails. An object that is
  laid out as the format asks is accepted exactly when its last member behind a pointer has a value.
- A time value is restored exactly when its unused high bits repeat its sign.
- A snapshot writer copies a change's committed block before its last, and skips numbers that go back: a CFT
  header that claims to commit a later block loses its own.
- The validator never advances `current`, so the order of blocks is only checked against the first head: blocks
  that go back are accepted (`LightOrder.OutOfOrder`), and the rows are in order exactly when the blocks that
  begin and end changes are handed in in order (`LightOrder.OrderExactly`).

## Model

| member | source | states |
|---|---|---|
| `GcRing.OrderIsAbsolute` | libraries/triedent/src/gc_queue.cpp:18-35 | For every position in the last full turn of the ring, the circular order relative to the end is the order of absolute positions |
| `GcRing.PositionOfSequence` | libraries/triedent/src/gc_queue.cpp:18-35 | Every circular index below the capacity is that of exactly such a position |
| `GcRing.UnlockedIsIgnored` | libraries/triedent/src/gc_queue.cpp:146-187 | An unlocked session never lowers the result of a scan, for any end, if and only if the capacity is at most 2^30 slots |
| `GcRing.HoldsPush` | libraries/triedent/src/gc_queue.cpp:61-71 | A push keeps the correspondence between the ring and the sequence of everything pushed; the size stays below the capacity |
| `GcRing.EndIsEmpty` | libraries/triedent/src/gc_queue.cpp:61-71 | The slot at the end is empty, so a push overwrites nothing |
| `GcRing.PoppedIsFifo` | libraries/triedent/src/gc_queue.cpp:129-144 | The loop of pop_some, around the ring, moves out exactly the oldest elements, in push order |
| `GcRing.LowerIsSafe` | libraries/triedent/src/gc_queue.cpp:146-187 | Folding one more session into a scan keeps the result a position of the queue that is not after that session's |
| `GcQueue.Queue.constructor` | libraries/triedent/include/triedent/gc_queue.hpp:49-52 | A new queue holds nothing, in a ring of one slot more than its capacity, and is usable if and only if the capacity is positive and its slots can be told from an unlocked session |
| `GcQueue.Queue.PopSome` | libraries/triedent/src/gc_queue.cpp:129-144 | The elements moved out are the oldest ones up to the given position, and the queue holds the others |
| `GcQueue.Queue.StartWait` | libraries/triedent/src/gc_queue.cpp:146-187 | The scan gives a position of the queue that is not after that of any locked session, and the session to mark when it must block |
| `GcQueue.Queue.TryPush` | libraries/triedent/src/gc_queue.cpp:37-71 | A push appends the element after moving out what no session can see, or refuses exactly when the queue stays full |
| `GcQueue.Queue.Poll` | libraries/triedent/src/gc_queue.cpp:73-81 | A poll moves out, in order, what no session can see, and appends nothing |
| `GcProtocol.StepKeepsInv` | libraries/triedent/src/gc_queue.cpp:37-187 | Every atomic step of every thread keeps the invariant of ring, history, sessions and scan |
| `GcProtocol.RunInv` | libraries/triedent/src/gc_queue.cpp:37-187 | The invariant holds in every state of every interleaving |
| `GcProtocol.GracePeriod` | libraries/triedent/include/triedent/gc_queue.hpp:145-189 | While a session holds its lock, no element pushed after it took the lock is moved out, in any run, including wrap-around and a full queue |
| `GcProtocol.Fifo` | libraries/triedent/src/gc_queue.cpp:37-141 | In every reachable state what was moved out is a prefix of what was pushed: each element once, in push order, none lost |
| `GcProtocol.SleeperIsWoken` | libraries/triedent/src/gc_queue.cpp:146-187 | A thread waits only while some session is marked to wake it when it unlocks |
| `GcProtocol.NoStuckScan` | libraries/triedent/src/gc_queue.cpp:146-187 | In every reachable state a finished scan can proceed |
| `GcProtocol.RunExtends` | libraries/triedent/src/gc_queue.cpp:37-187 | Along every run the history of pushed and popped elements only grows, and the capacity stays |
| `RegionState.StoreAvailable` | libraries/triedent/src/region_allocator.cpp:120-136 | A region whose counter becomes zero was neither free nor marked nor promised to a delayed free, and is so in exactly one way afterwards |
| `RegionState.DeallocateFits` | libraries/triedent/src/region_allocator.cpp:112-136 | The bytes of a deallocation are counted: the subtraction never borrows |
| `RegionState.DeallocateInv` | libraries/triedent/src/region_allocator.cpp:112-136 | A deallocation keeps the invariant, also when it comes after its region was emptied by evacuation |
| `RegionState.EvacuationFits` | libraries/triedent/src/region_allocator.cpp:241-279 | Every live object of the source fits what is left of the reserved range, so an evacuation never stops early |
| `RegionState.MoveInv` | libraries/triedent/src/region_allocator.cpp:241-279 | Moving one object keeps the invariant: bytes are counted where they were and where they go |
| `RegionState.FinishFits` | libraries/triedent/src/region_allocator.cpp:399-457 | The final accounting of an evacuation never borrows, and a source that is reset has no pending write |
| `RegionState.FinishInv` | libraries/triedent/src/region_allocator.cpp:399-457 | The final accounting keeps the invariant, also when doubling has joined source and target |
| `RegionState.NoDoubleFree` | libraries/triedent/src/region_allocator.cpp:470-499 | The regions of a delayed free that is not outdated are empty, and none of them is free already |
| `RegionState.FireInv` | libraries/triedent/src/region_allocator.cpp:470-499 | A delayed free keeps the invariant; outdated ones are ignored |
| `RegionSwitch.ReuseIsSafe` | libraries/triedent/src/region_allocator.cpp:170-212 | A free region holds no live object, no object whose deallocation is outstanding, and no source or target of an evacuation; `RegionHistory.ReuseDeserted` adds what sessions read |
| `RegionSwitch.QueueInv` | libraries/triedent/src/region_allocator.cpp:342-370 | Queueing a region for evacuation, with fewer items than slots, reserves room for all of it and keeps the invariant; `RegionSlots.PushExactly` is about the other case |
| `RegionSwitch.DoublingExactly` | libraries/triedent/src/region_allocator.cpp:213-230 | Doubling keeps used bytes an upper bound if and only if the deallocations outstanding in each empty region fit what the counter of a neighbour in use has to spare |
| `RegionSwitch.DoubleInvExactly` | libraries/triedent/src/region_allocator.cpp:213-230 | The same for the whole invariant |
| `RegionSwitch.DoubleInv` | libraries/triedent/src/region_allocator.cpp:213-230 | Safe doubling keeps the whole invariant: evacuations go on, and delayed frees for the old size are outdated |
| `RegionRuns.NextInv` | libraries/triedent/src/region_allocator.cpp:74-519 | Every critical section and every move of an evacuation keeps the invariant of counters, sets and reserved ranges, if doublings are safe and pushes find fewer items than slots |
| `RegionSlots.MinusFits` | libraries/triedent/src/region_allocator.cpp:429-457 | On the packed word of a counter, a subtraction changes exactly its parts, if each of them has what is subtracted |
| `RegionSlots.FreeExactly` | libraries/triedent/src/region_allocator.cpp:281-288 | The slot for the next item is free if and only if there are fewer items than slots, or the source of the front is walked and its range full |
| `RegionSlots.RingFree` | libraries/triedent/src/region_allocator.cpp:342-353 | The same for the slots with their two positions, while the front is being evacuated or not |
| `RegionSlots.RingTake` | libraries/triedent/src/region_allocator.cpp:387-390 | Taking the front moves the position on if and only if the queue is not empty |
| `RegionSlots.SettleFinishes` | libraries/triedent/src/region_allocator.cpp:403-447 | The accounting from the slot of the front is the end of its evacuation |
| `RegionSlots.FrontEnds` | libraries/triedent/src/region_allocator.cpp:403-447 | The same from whatever is in the slot: if another item has taken it, the accounting is that of `FinishOver` |
| `RegionSlots.PushExactly` | libraries/triedent/src/region_allocator.cpp:342-370 | With fewer items than slots a push keeps the invariant; a push into the slot of the front breaks the count of pending writes |
| `RegionTiles.CutTiles` | libraries/triedent/src/region_allocator.cpp:74-111 | Writing an object at the start of a blank piece keeps the file covered by pieces without gaps |
| `RegionTiles.ClearTiles` | libraries/triedent/src/region_allocator.cpp:182-212 | The same when a region that is reused becomes one blank piece |
| `RegionWalk.FieldExactly` | libraries/triedent/include/triedent/ring_allocator.hpp:19-28 | The 24-bit size field of a header leads to the end of its piece if and only if the piece has at most 2^24 bytes, and falls short otherwise |
| `RegionWalk.WalkExactly` | libraries/triedent/src/region_allocator.cpp:241-279 | The walk from header to header arrives at the end of its range and comes by everything that begins in it, whatever the bytes between headers are, if and only if no piece is larger than 2^24 bytes |
| `RegionUpkeep.AllocInv` | libraries/triedent/src/region_allocator.cpp:74-111 | An allocation keeps the layout: what is live, outstanding, reserved or read by a session lies in pieces apart from each other and from what is blank |
| `RegionUpkeep.FreeInv` | libraries/triedent/src/region_allocator.cpp:470-499 | A delayed free that waited for its sessions keeps it: no open session reads in a region that becomes free |
| `RegionUpkeep.HoldInv` | libraries/triedent/include/triedent/cache_allocator.hpp:153-187 | A session that reads the place of a live object is protected from then on |
| `RegionEvacuate.QueueRegionInv` | libraries/triedent/src/region_allocator.cpp:342-370 | Reserving a range for an evacuation, with fewer items than slots, keeps the layout, and the walk begins at a header |
| `RegionEvacuate.VisitInv` | libraries/triedent/src/region_allocator.cpp:241-279 | A step of the walk, with or without a move, keeps the layout, and over small pieces nothing behind the walk is alive |
| `RegionEvacuate.EndInv` | libraries/triedent/src/region_allocator.cpp:399-457 | The end of an evacuation over pieces of at most 2^24 bytes, with its filler, keeps the layout |
| `RegionEvacuate.CloseRegionInv` | libraries/triedent/src/region_allocator.cpp:80-92 | The filler in the rest of a region that is closed keeps the layout |
| `RegionTurn.ReuseRegionInv` | libraries/triedent/src/region_allocator.cpp:170-212 | Reusing a free region overwrites nothing that is live, outstanding, reserved or read |
| `RegionTurn.ExtendFileInv` | libraries/triedent/src/region_allocator.cpp:182-212 | Extending the file keeps the layout |
| `RegionTurn.DoubleRegionsInv` | libraries/triedent/src/region_allocator.cpp:213-230 | A safe doubling keeps the layout |
| `RegionHistory.NextInv` | libraries/triedent/src/region_allocator.cpp:74-519 | Every step of the allocator, of its users and of sessions keeps the whole invariant, unless an evacuation ends over a piece larger than 2^24 bytes, a doubling is not safe, or a push takes the slot of an evacuation |
| `RegionHistory.RunInv` | libraries/triedent/src/region_allocator.cpp:74-519 | The invariant holds in every state of every run from a fresh file up to such a step |
| `RegionHistory.AllocUntouched` | libraries/triedent/src/region_allocator.cpp:74-111 | The place of a new object is apart from everything live, outstanding or read by a session |
| `RegionHistory.MoveUntouched` | libraries/triedent/src/region_allocator.cpp:241-279 | The same for the place that an evacuation moves an object to |
| `RegionHistory.CopyUntouched` | libraries/triedent/src/region_allocator.cpp:254-263 | The same for the copy that is made before |
| `RegionHistory.FillUntouched` | libraries/triedent/src/region_allocator.cpp:410-428 | The same for the filler behind what an evacuation has copied |
| `RegionHistory.CloseUntouched` | libraries/triedent/src/region_allocator.cpp:80-92 | The same for the filler at the end of a region that is closed |
| `RegionHistory.ReuseDeserted` | libraries/triedent/src/region_allocator.cpp:170-212 | A free region holds nothing that is live, outstanding or read by a session |
| `RegionHistory.RunSafe` | libraries/triedent/src/region_allocator.cpp:74-519 | In every such run objects and fillers are written, copied and moved only where nothing is, evacuations have room and leave nothing behind, reused regions hold nothing, no region is freed twice, subtractions do not borrow, and used bytes bound live bytes |
| `RegionHistory.EvacuationExactly` | libraries/triedent/src/region_allocator.cpp:241-279 | In every such run the walk of the evacuation at the front comes by everything in its source if and only if its pieces have at most 2^24 bytes |
| `RegionLoss.LiveObjectLost` | libraries/triedent/src/region_allocator.cpp:409-428 | A run from a fresh file of 48 MiB, with greedy choices and no doubling, whose second evacuation passes over a live object, and which frees its region |
| `RegionUnsafe.LiveObjectReused` | libraries/triedent/src/region_allocator.cpp:213-230 | A run from a fresh file, with one doubling that is not safe, after which a region with a live object is about to be reused |
| `RegionClash.HeaderOverwritten` | libraries/triedent/src/region_allocator.cpp:342-447 | A run from a fresh file, with greedy choices, small pieces and no doubling, to a push that takes the slot of an evacuation before its accounting, which then writes a filler over a live object and borrows from the counter of its region |
| `RegionAllocator.GreedyFits` | libraries/triedent/src/region_allocator.cpp:139-169 | The greedy choice takes candidates only, and they fill at most half a region |
| `RegionAllocator.GreedyMaximal` | libraries/triedent/src/region_allocator.cpp:139-169 | A candidate that is left out would not have fitted when it was scanned |
| `RegionAllocator.SelectSmallRegions` | libraries/triedent/src/region_allocator.cpp:139-164 | The heap loop selects exactly the greedy scan in index order, with its total |
| `RegionAllocator.GreedyToQueue` | libraries/triedent/src/region_allocator.cpp:139-169 | After a switch, what was chosen can be queued: it fits the first half of the new region |
| `RegionAllocator.QueueChosen` | libraries/triedent/src/region_allocator.cpp:165-169 | Queueing the chosen regions, in whatever order they leave the heap, reserves at most half a region, and keeps the invariant unless the slot of the front is taken, which needs as many items as slots and an idle slot |
| `RegionAllocator.FillExcess` | libraries/triedent/src/region_allocator.cpp:409-428 | The filler headers reach the end of the reserved range if and only if the excess is at most 2^24 bytes |
| `RegionAllocator.EvacuateRegion` | libraries/triedent/src/region_allocator.cpp:241-279 | The loop goes from header to header, and packs the copies of what was moved from the start of the range; it stops before the end only at an object that needs more room than is left |
| `RegionAllocator.EvacuationComplete` | libraries/triedent/src/region_allocator.cpp:241-279 | Over pieces that a header can tell, and with room for what is copied, the walk ends at the end of its range and has come by every piece in order |
| `RegionAllocator.Allocator.constructor` | libraries/triedent/src/region_allocator.cpp:8-53 | A fresh file has one region, which is the current one |
| `RegionAllocator.Allocator.Subtract` | libraries/triedent/src/region_allocator.cpp:120-136 | Bytes are taken off a counter that is not zero, and a region that becomes empty is marked for freeing |
| `RegionAllocator.Allocator.Free` | libraries/triedent/src/region_allocator.cpp:112-119 | The deallocation of a released object, as in the state machine |
| `RegionAllocator.Allocator.GetFreeRegion` | libraries/triedent/src/region_allocator.cpp:170-181 | The lowest free region, or none if none is free |
| `RegionAllocator.Allocator.DoubleRegionSize` | libraries/triedent/src/region_allocator.cpp:213-230 | Counters of neighbours are added in a loop; the result is the doubled state |
| `RegionAllocator.Allocator.ReevaluateFree` | libraries/triedent/src/region_allocator.cpp:509-519 | The regions marked for freeing are recomputed as exactly the empty ones |
| `RegionAllocator.Allocator.CloseRegion` | libraries/triedent/src/region_allocator.cpp:80-92 | The rest of the current region is given back, as in the state machine |
| `RegionAllocator.Allocator.StartNewRegion` | libraries/triedent/src/region_allocator.cpp:182-212 | The first free region is reused, or else the file is extended, after doubling when there are 64 regions |
| `RegionAllocator.Allocator.PushQueue` | libraries/triedent/src/region_allocator.cpp:342-370 | A push is refused exactly when the slot for it is in use, that is, with as many items as slots and a front that is not walked or not full; otherwise the slot is filled, whatever was in it, and a range is reserved |
| `RegionAllocator.Allocator.TakeItem` | libraries/triedent/src/region_allocator.cpp:387-390 | The front of the queue is taken if there is one, and the slots stand for the same queue |
| `RegionAllocator.Allocator.Advance` | libraries/triedent/src/region_allocator.cpp:259-276 | The progress of an evacuation is noted in its slot |
| `RegionAllocator.Allocator.SettleCounters` | libraries/triedent/src/region_allocator.cpp:403-457 | The accounting of the counters from what a slot says, in the order of the source, in which the target's counter is read first |
| `RegionAllocator.Allocator.FinishEvacuation` | libraries/triedent/src/region_allocator.cpp:403-457 | The accounting is that of the evacuation if its slot still holds it, and that of `FinishOver` if another item has taken the slot |
| `RegionAllocator.Allocator.QueueAvailable` | libraries/triedent/src/region_allocator.cpp:458-499 | The marked regions are handed to a delayed free with the present region size |
| `RegionAllocator.Allocator.RunFree` | libraries/triedent/src/region_allocator.cpp:470-499 | A delayed free sets its regions free, or does nothing when the region size has changed |
| `RingPointer.AdvanceAdds` | libraries/triedent/src/ring_allocator.cpp:69-90 | The update of offset and phase bit adds to the position on the unrolled line |
| `RingPointer.AdvanceCommutes` | libraries/triedent/src/ring_allocator.cpp:63-83 | Delayed updates give the same pointer in any order |
| `RingPointer.SameLap` | libraries/triedent/include/triedent/ring_allocator.hpp:171-222 | For positions at most a lap apart, the phase bits differ exactly when the later one is in the next lap |
| `RingPointer.PotentialFreeIs` | libraries/triedent/include/triedent/ring_allocator.hpp:204-218 | The formula on pointers is all that is not allocated |
| `RingPointer.CheckContiguous` | libraries/triedent/include/triedent/ring_allocator.hpp:171-198 | In a ring of a multiple of 8 bytes: success means that the object fits contiguous free memory, at the end of the buffer or at its start after a dummy object, and a refusal that there is no such place. In another ring the dummy object leads behind the end of the buffer |
| `RingPointer.DummyExactly` | libraries/triedent/include/triedent/ring_allocator.hpp:171-240 | The dummy object reaches the end of the buffer, by the 24-bit field of its header and its rounding, if and only if the buffer has a multiple of 8 bytes; otherwise it passes the end |
| `RingPointer.DummyPasses` | libraries/triedent/include/triedent/ring_allocator.hpp:226-240 | In a buffer of 35000005 bytes the dummy object ends 3 bytes behind the end, or has more than 16 MiB |
| `RingPointer.ApartInBuffer` | libraries/triedent/include/triedent/ring_allocator.hpp:147-242 | Ranges that do not overlap on the line, within one lap, do not overlap in the buffer |
| `RingAllocator.Ring.constructor` | libraries/triedent/src/ring_allocator.cpp:8-40 | A new ring is all free |
| `RingAllocator.Ring.UpdateFree` | libraries/triedent/src/ring_allocator.cpp:57-96 | Free memory grows by the bytes of the update, in whatever order updates run, and never beyond what was swapped out |
| `RingAllocator.RowSnoc` | libraries/triedent/include/triedent/ring_allocator.hpp:152-168 | A header written at the end of allocated memory is that of no object in it |
| `RingAllocator.Ring.WriteObject` | libraries/triedent/include/triedent/ring_allocator.hpp:152-168 | The header is written and `alloc_p` moves past the object |
| `RingAllocator.Ring.PadEnd` | libraries/triedent/include/triedent/ring_allocator.hpp:171-191 | The rest of the buffer becomes a dummy object, which ends at its end if and only if the size is a multiple of 8 |
| `RingAllocator.Ring.TryAllocate` | libraries/triedent/include/triedent/ring_allocator.hpp:340-354 | The object occupies contiguous free memory, at the end of the row of headers; a refusal allocates nothing but perhaps a dummy object, and means that there is no room. In a ring that has not a multiple of 8 bytes, a dummy object leads `alloc_p` behind the end |
| `RingAllocator.Ring.Swap` | libraries/triedent/include/triedent/ring_allocator.hpp:257-274 | The walk from header to header passes the leading objects that were moved or are dead, until enough would be free, and frees their bytes later |
| `Cache.StoreInv` | libraries/triedent/src/cache_allocator.cpp:100-122 | Storing an object where nothing is keeps rings, objects and what sessions read in order |
| `Cache.StoreKeepsAll` | libraries/triedent/src/cache_allocator.cpp:100-122 | Storing an object where nothing is changes nothing that any id or session reads |
| `Cache.PadOk` | libraries/triedent/include/triedent/ring_allocator.hpp:171-191 | A dummy object at the end of a ring keeps its row of headers, up to the start of the buffer |
| `Cache.PassOk` | libraries/triedent/include/triedent/ring_allocator.hpp:226-240 | From the header at the walk the next one is found, and none is in between |
| `CacheRuns.WalkFrees` | libraries/triedent/include/triedent/ring_allocator.hpp:257-274 | The walk has come by every object that is alive between the last swap and where it is: what a swap gives up holds none |
| `CacheRuns.PassInv` | libraries/triedent/src/cache_allocator.cpp:100-122 | Passing an object whose id is not there keeps the invariant |
| `CacheRuns.NextInv` | libraries/triedent/src/cache_allocator.cpp:93-162 | Every step (create, release, move, a dummy object, a step of the swap walk, its end, free, extend, open and close a session) keeps the invariant |
| `CacheRuns.StepRefines` | libraries/triedent/src/cache_allocator.cpp:93-162 | Creating and releasing objects changes the map from ids to bytes accordingly; moving, swapping and freeing do not change it |
| `CacheRuns.HeldStable` | libraries/triedent/src/cache_allocator.cpp:93-162 | A location that a session has read keeps its bytes through every step until the session closes |
| `ColdCache.ColdIsFresh` | libraries/triedent/src/cache_allocator.cpp:100-122 | A place in the cold file that is apart from what the file knows to be live or read is apart from what the cache has there and from what its sessions read |
| `ColdCache.CacheCan` | libraries/triedent/src/cache_allocator.cpp:93-162 | Whenever the cold file can take its part of a step, the place it gives is one where the cache can store: nothing is assumed of the file |
| `ColdCache.GoesInv` | libraries/triedent/src/cache_allocator.cpp:93-162 | Every step of cache and cold file together keeps both invariants and their link: each object in the file belongs to one id, and the file knows what sessions read there |
| `ColdCache.RunRefines` | libraries/triedent/src/cache_allocator.cpp:93-162 | After every run of cache and cold file with rings of a multiple of 8 bytes (up to an evacuation over a piece larger than 2^24 bytes, an unsafe doubling, or a push that takes the slot of an evacuation) the cache holds exactly what was created and not released, byte for byte |
| `ColdCache.RunHeld` | libraries/triedent/include/triedent/cache_allocator.hpp:153-187 | Over any part of such a run, what a session has read, in a ring or in the cold file, keeps its bytes while the session stays open |
| `Leb128.UnsignedRoundTrip` | libraries/psio/include/psio/from_bin.hpp:20-59 | Decoding an encoded unsigned number, followed by anything, gives it back with the rest |
| `Leb128.SignedRoundTrip` | libraries/psio/include/psio/from_bin.hpp:79-96 | The same for signed numbers |
| `Leb128.FixedRoundTrip` | libraries/psio/include/psio/to_bin.hpp:30-57 | The same for integers of fixed width |
| `DwarfTranslate.AllRoundTrip` | libraries/debug_eos_vm/dwarf.cpp:265-330 | A consumer reads back exactly the operations that the translator writes |
| `DwarfTranslate.TranslateExpr` | libraries/debug_eos_vm/dwarf.cpp:1527-1946 | The loop accepts exactly the expressions that decode and use no register, and its bytes are the translation of the decoded operations, in any context of object and location |
| `DwarfSimulation.SimulateOp` | libraries/debug_eos_vm/dwarf.cpp:1591-1900 | Every operation that succeeds on the 4-byte machine also runs natively, where it is exact, and every native cell is the zero-extended wasm cell |
| `DwarfSimulation.SimulateRun` | libraries/debug_eos_vm/dwarf.cpp:1527-1946 | The same for every sequence of operations |
| `DwarfSimulation.TranslationCorrect` | libraries/debug_eos_vm/dwarf.cpp:1527-1946 | Running the translated bytes natively gives the stack of the wasm bytes, and a final location becomes base plus address |
| `DwarfSimulation.SignExtendedMod` | libraries/debug_eos_vm/dwarf.cpp:1764-1770 | The translated remainder is the 32-bit one if and only if a < 2^31, or b >= 2^31, or b divides 2^64 - 2^32 |
| `DwarfSimulation.ModCounterexample` | libraries/debug_eos_vm/dwarf.cpp:1764-1770 | The remainder of -1 by 7 is translated wrongly |
| `DwarfSimulation.SimulateFbreg` | libraries/debug_eos_vm/dwarf.cpp:1678-1684 | A frame offset is translated exactly if and only if it stays in the 32-bit address space |
| `DwarfSimulation.FbregCounterexample` | libraries/debug_eos_vm/dwarf.cpp:1678-1684 | A frame offset below the start of linear memory is translated wrongly |
| `DwarfLines.PartitionPoint` | libraries/debug_eos_vm/dwarf.cpp:824-845 | Bisection finds the first instruction at or after an address |
| `DwarfLines.GetAddrRange` | libraries/debug_eos_vm/dwarf.cpp:824-845 | The native range of a location, found by bisection, is that found by scanning |
| `DwarfLines.RoundTrip` | libraries/debug_eos_vm/dwarf.cpp:690-799 | The reader decodes exactly the instructions that are written |
| `DwarfLines.WriteLineProgram` | libraries/debug_eos_vm/dwarf.cpp:847-933 | The loop writes the encoding of the program that is specified location by location |
| `DwarfLines.ExecProgram` | libraries/debug_eos_vm/dwarf.cpp:847-933 | Executing that program from the encoder's state appends exactly the specified rows |
| `DwarfLines.RowsAscending` | libraries/debug_eos_vm/dwarf.cpp:847-933 | Within a sequence, addresses never decrease |
| `DwarfLines.ExtentsOfRows` | libraries/debug_eos_vm/dwarf.cpp:847-933 | A row covers its range, extended up to the next range unless that one begins no later |
| `DwarfLines.LineProgramCorrect` | libraries/debug_eos_vm/dwarf.cpp:847-933 | The written bytes decode and run to one row per location with a native range, in order, with address, file, line and flags, and in ascending sequences |
| `GrisuFp.BuildFpIsDouble` | libraries/psio/src/fpconv.c:42-59 | Every finite double other than zero has a significand and exponent in range |
| `GrisuFp.ShiftUp` | libraries/psio/src/fpconv.c:61-97 | The normalisation loop multiplies by a power of two, adjusts the exponent, and sets the top bit |
| `GrisuFp.NormalizedBoundaries` | libraries/psio/src/fpconv.c:73-97 | Value and boundaries are brought to one exponent, exactly, with the lower one closer below a power of two |
| `GrisuFp.MultiplyIsRounded` | libraries/psio/src/fpconv.c:99-118 | The four partial products give a·b/2^64, rounded half up |
| `GrisuFp.MultiplyFits` | libraries/psio/src/fpconv.c:99-118 | No partial result overflows 64 bits |
| `GrisuTable.FindCachedPow10` | libraries/psio/src/powers.h:53-80 | From any first guess in the table, the walk stays in it and ends in the accepted window |
| `GrisuTable.FirstGuessInTable` | libraries/psio/src/powers.h:53-60 | The first guess lies in the table for every exponent that occurs, however the floating-point product is rounded, up to an error of 1 |
| `GrisuAccuracy.PowersAccurate` | libraries/psio/src/powers.h:9-51 | Each of the 87 cached powers is within half a unit of its power of ten |
| `GrisuDigits.RoundDigit` | libraries/psio/src/fpconv.c:120-128 | The last digit moves towards the exact value and stays in the interval; it becomes zero if and only if the digits reach the lower boundary exactly and the value is less than half a unit away from it |
| `GrisuDigits.GenerateDigits` | libraries/psio/src/fpconv.c:130-189 | At most 17 digits without a leading zero, for a number between the scaled boundaries, without overflow; the last one is zero if and only if the lower boundary ends a few places after the point, the next place is the first to fit between the boundaries, and the value is less than half a unit of it from the lower one |
| `Grisu.DigitTakenToZero` | libraries/psio/src/fpconv.c:120-128 | For the double 4.51298886875e-277 the last digit is taken to zero |
| `GrisuBounds.ScaledInInterval` | libraries/psio/src/fpconv.c:191-213 | A number between the scaled and narrowed boundaries lies in the rounding interval of the double, cached power and rounding errors included |
| `GrisuBounds.IntervalsDisjoint` | libraries/psio/src/fpconv.c:73-97 | The rounding intervals of different doubles are disjoint, so a decimal in one identifies its double |
| `Grisu.CachedPower` | libraries/psio/src/powers.h:53-80 | The power found is normalised, accurate, and brings the exponent into range |
| `Grisu.Grisu2` | libraries/psio/src/fpconv.c:191-213 | For every positive finite double: at most 17 digits, and digits·10^K strictly inside its rounding interval |
| `GrisuEmit.TextFits` | libraries/psio/src/fpconv.c:215-293 | With the sign, the text has at most 24 characters |
| `GrisuEmit.EmitDigits` | libraries/psio/src/fpconv.c:215-293 | The writes into the buffer, in all three notations, spell the text of the digits, and nothing before them changes |
| `GrisuEmit.TextDenotes` | libraries/psio/src/fpconv.c:215-293 | A reader of the text gets exactly digits·10^K |
| `GrisuEmit.FilterSpecial` | libraries/psio/src/fpconv.c:295-318 | Zero, infinity and not-a-number get their names, and nothing else does |
| `GrisuEmit.Dtoa` | libraries/psio/src/fpconv.c:320-345 | For every bit pattern: a sign exactly when the sign bit is set, then the name or a decimal in the rounding interval, in at most 24 bytes |
| `GrisuEmit.TextIdentifies` | libraries/psio/src/fpconv.c:320-345 | The text of a finite double other than zero reads as a decimal in its rounding interval |
| `GrisuEmit.IdentifiesOne` | libraries/psio/src/fpconv.c:320-345 | One text is that of one double only, up to the sign |
| `SchemaMatch.Matches` | libraries/psio/src/schema.cpp:439-471 | The worklist ends on every finite graph, and answers yes if and only if the types agree at the end of every common path |
| `SchemaLayout.OffsetsAreSums` | libraries/psio/src/schema.cpp:476-505 | Members lie at the sums of the inline sizes before them, modulo 2^32 |
| `SchemaLayout.MemberOffsets` | libraries/psio/src/schema.cpp:476-505 | A member's offset is the exact sum if and only if the sum is at most 65535 |
| `SchemaCompile.WrappedOffset` | libraries/psio/src/schema.cpp:476-505 | A schema with members of 2^32 bytes in total compiles without an error, and its last member is at the start again |
| `SchemaLayout.FitsWithoutWrap` | libraries/psio/src/schema.cpp:476-505 | If no preceding sum exceeds 65535, the layout does not fail |
| `SchemaLayout.Link` | libraries/psio/src/schema.cpp:497-505 | The loop over the members computes that layout |
| `SchemaCompile.CycleFound` | libraries/psio/src/schema.cpp:507-551 | A type that is met again under itself closes a chain of strict containment |
| `SchemaCompile.NoCycle` | libraries/psio/src/schema.cpp:507-551 | A type that has been completed is on no such chain |
| `SchemaCompile.Add` | libraries/psio/src/schema.cpp:569-781 | One step of the walk keeps the invariant of stack, queue and types, and makes progress |
| `SchemaCompile.Compile` | libraries/psio/src/schema.cpp:785-816 | Apart from size errors, compilation fails if and only if some reachable type contains itself without a list, option or variant; on success every entry is determined by its children |
| `FracSchema.ResolveContainers` | libraries/psio/src/schema.cpp:818-829 | The pass over all types, in any order, makes lists of options refer to what the options hold |
| `FracSchema.CompiledIsWire` | libraries/psio/src/schema.cpp:785-829 | A compiled schema satisfies everything that the parser relies on, if no sum of sizes wraps around |
| `FracSchema.CompiledIsFounded` | libraries/psio/src/schema.cpp:785-829 | In such a schema members that are not optional rank below their type, so that reading without using up bytes ends |
| `FracSchema.CompileSchema` | libraries/psio/src/schema.cpp:785-829 | Compilation and the pass over lists, together: all reachable types, fit for the parser, or an error with its reason |
| `FracWire.Unique` | libraries/psio/src/schema.cpp:938-1119 | Two buffers that hold the same value at a position agree on all of its bytes |
| `FracCanonical.FixedBytesAre` | libraries/psio/src/schema.cpp:944-997 | The fixed data of an accepted object ends exactly with its last member that is present |
| `FracCanonical.TokensPrefix` | libraries/psio/src/schema.cpp:938-1119 | An item sequence describes at most one value, and where it ends |
| `FracCanonical.RunObject` | libraries/psio/src/schema.cpp:938-998 | Running the reader of an object to its end, with pointers read in its fixed data, shows the values of its members, where they lie, and the parser as it was below |
| `FracCanonical.RunArray` | libraries/psio/src/schema.cpp:1019-1044 | The same for the elements of an array or list |
| `FracCanonical.RunDeref` | libraries/psio/src/schema.cpp:1147-1203 | Following a pointer in the fixed data shows the value behind it: absent, empty, or exactly at the cursor |
| `FracCanonical.RunVariant` | libraries/psio/src/schema.cpp:1046-1081 | A variant's content fills exactly the size that it states, and the outer end is restored |
| `FracCanonical.RunNested` | libraries/psio/src/schema.cpp:1083-1119 | The same for nested data |
| `FracCanonical.ValidHolds` | libraries/psio/src/schema.cpp:870-883 | A valid buffer, in which fixed data reaches every pointer that is not optional, is exactly the encoding of the value that its items describe |
| `FracCanonical.ValidIsCanonical` | libraries/psio/src/schema.cpp:870-883 | Two such buffers of a type with the same items are the same buffer |
| `FracEmpty.HoleIsValid` | libraries/psio/src/schema.cpp:1103-1106 | Nested data of no bytes is accepted with any bytes behind it, and the items do not show them |
| `FracEmpty.CanonicalExactly` | libraries/psio/src/schema.cpp:870-883 | For every schema that the parser can use, such buffers are determined by their items if and only if no nested data can be empty |
| `FracEmpty.NestedSizedExactly` | libraries/psio/src/schema.cpp:1103-1106 | For every compiled schema without structs of 65536 bytes, nested data can be empty if and only if it is that of a scalar, array or struct of size zero |
| `FracComplete.HoldsValid` | libraries/psio/src/schema.cpp:870-883 | A buffer that holds a value from end to end is accepted, with fixed data that reaches every pointer, and the items are those of the value |
| `FracComplete.ValidExactly` | libraries/psio/src/schema.cpp:870-883 | A buffer is the encoding of the value that some items describe, where a struct has as many bytes as its reader keeps of its size, if and only if it is valid with them and the fixed data of every object that is read reaches each pointer that is not optional |
| `FracComplete.ObjectExactly` | libraries/psio/src/schema.cpp:944-997 | An object laid out as the format asks is accepted in this way if and only if its last member behind a pointer has a value |
| `FracWide.WideExactly` | libraries/psio/src/schema.cpp:944-997 | The encoding of a value, with all the bytes of its structs, is accepted in this way if and only if each of its structs has fewer than 65536; in a schema without gaps, it is accepted if and only if they have |
| `FracWide.FormatExactly` | libraries/psio/src/schema.cpp:870-883 | In a schema without structs of 65536 bytes or more, a buffer is valid in this way if and only if it is the encoding of the value that its items describe; in one without gaps, it is valid if and only if it is |
| `FracWide.WideAccepted` | libraries/psio/src/schema.cpp:1386-1396 | A schema with a struct of 65536 bytes compiles without an error, and the empty buffer is valid for the struct |
| `FracGap.GaplessProper` | libraries/psio/src/schema.cpp:976-994 | In a schema in which no option precedes a pointer that is not optional, fixed data reaches the pointers of every valid buffer |
| `FracGap.GaplessExactly` | libraries/psio/src/schema.cpp:870-883 | In such a schema a buffer is valid with some items if and only if it is the encoding of the value that they describe |
| `FracGap.GaplessCanonical` | libraries/psio/src/schema.cpp:870-883 | In such a schema valid buffers are determined by their items if and only if no nested data can be empty |
| `FracGap.GaplessCovers` | libraries/psio/src/schema.cpp:870-883 | In such a schema every byte of a valid buffer is used exactly once |
| `FracFault.GaplessInside` | libraries/psio/src/schema.cpp:938-1203 | In such a schema, if its arrays are whole, the parser reads nothing outside of any buffer |
| `FracFault.SizelessDivides` | libraries/psio/src/schema.cpp:1405-1427 | A list of elements of no bytes is divided by zero if and only if its size is there and within the data |
| `FracFault.DividesExactly` | libraries/psio/src/schema.cpp:1405-1427 | Some buffer of a schema makes the parser divide by zero if and only if the schema has such a list |
| `FracMisread.TwoBuffers` | libraries/psio/src/schema.cpp:976-994 | For every schema with an object of a list, an option and a list: a buffer of 19 bytes is valid with the items of one of 27 bytes, and is no encoding |
| `FracMisread.ReadsOutside` | libraries/psio/include/psio/fracpack.hpp:279-283 | For every schema with an object of an option and a list: the buffer of two zero bytes makes the parser read outside of it |
| `FracMisread.GapAccepted` | libraries/psio/src/schema.cpp:785-829 | A schema with both objects and with a list of elements of no bytes compiles without an error, and all three buffers do what is said of them |
| `FracSane.SaneNext` | libraries/psio/src/schema.cpp:1249-1270 | In every state that the parser reaches, the cursor is not behind the end of the data, and arrays of pointers are whole: only members of objects can have their pointers read behind the fixed data |
| `FracRefused.EncodingRefused` | libraries/psio/src/schema.cpp:969-995 | Such an object, with an absent option before fixed data, is refused whatever the data and the items |
| `FracCover.Once` | libraries/psio/src/schema.cpp:938-1119 | In a buffer that holds a value, each byte from its start to its end is used by exactly one scalar, pointer, tag or size |
| `FracCover.ValidCovers` | libraries/psio/src/schema.cpp:870-883 | In such a buffer every byte is used exactly once by the value that the items describe |
| `FracParser.FracParser.constructor` | libraries/psio/src/schema.cpp:1121-1135 | The cursor is at the start and the data ends with the buffer |
| `FracParser.FracParser.PushType` | libraries/psio/src/schema.cpp:1378-1459 | The cursor moves and a reader is pushed, as the parser function states, or the call fails exactly when that does |
| `FracParser.FracParser.DerefAt` | libraries/psio/src/schema.cpp:1147-1203 | The same for following a pointer, with the 32-bit difference that bounds its read |
| `FracParser.FracParser.ParseType` | libraries/psio/src/schema.cpp:1205-1228 | The same for reading a type at the cursor |
| `FracParser.FracParser.NextObject` | libraries/psio/src/schema.cpp:938-998 | The next member, and the state afterwards |
| `FracParser.FracParser.NextElement` | libraries/psio/src/schema.cpp:1019-1044 | The next element, and the state afterwards |
| `FracParser.FracParser.NextAlternative` | libraries/psio/src/schema.cpp:1046-1081 | The content of a variant or its end, and the state afterwards |
| `FracParser.FracParser.NextNested` | libraries/psio/src/schema.cpp:1083-1119 | The content of nested data or its end, and the state afterwards |
| `FracParser.FracParser.NextOption` | libraries/psio/src/schema.cpp:1000-1017 | The content of an optional value or its end, and the state afterwards |
| `FracParser.FracParser.NextItem` | libraries/psio/src/schema.cpp:1249-1270 | One step of the parser: the item and the whole new state, or how reading ends: with an error, outside of the buffer, or with a division by zero |
| `FracParser.Validate` | libraries/psio/src/schema.cpp:870-883 | The loop ends on every buffer: it answers valid, with the items of a valid run, if and only if there is one, and each of the ways to end early if and only if some run ends so |
| `FracEnds.NextLessens` | libraries/psio/src/schema.cpp:1249-1270 | Every step of the parser uses up bytes, or work that is bounded by the readers on the stack |
| `Calendar.CivilRoundTrip` | libraries/psio/src/chrono.cpp:6-45 | Every civil date is the date of its day number |
| `Calendar.ClosedForm` | libraries/psio/src/chrono.cpp:6-45 | Days before a year are 365 per year plus the leap years by the 4, 100 and 400 rule |
| `TimePoint.AppendUint` | libraries/psio/src/chrono.cpp:6-45 | The loop that writes digits from the end appends the decimal digits in order |
| `TimePoint.ParseUint` | libraries/psio/src/chrono.cpp:47-155 | The loop reads exactly the given number of digits, or fails |
| `TimePoint.FormatSystemTime` | libraries/psio/src/chrono.cpp:6-45 | The text written is the specified one for every time |
| `TimePoint.ParseSystemTime` | libraries/psio/src/chrono.cpp:47-155 | The cursor-based parser accepts exactly the specified texts, with their times |
| `TimePoint.TextRoundTrip` | libraries/psio/src/chrono.cpp:6-155 | For every time in years 0000 to 9999 and up to nine decimals, parsing its text gives it back |
| `TimeCodec.ReadRaw` | libraries/psio/src/schema.cpp:283-310 | The loop over the bytes gives their little-endian number |
| `TimeCodec.PackExactly` | libraries/psio/src/schema.cpp:340-383 | Packing the value behind some bytes restores them if and only if their unused bits repeat the sign |
| `TimeCodec.BytesRoundTrip` | libraries/psio/src/schema.cpp:283-383 | For every integer type of at most 64 bits and every time in years 0000 to 9999, bytes to text and back restores the bytes if and only if they are canonical |
| `LightClient.ConfirmsDistinct` | programs/snapshot/LightValidator.hpp:225-264 | Increasing order makes accepted signers distinct, and every signer is a producer |
| `LightClient.QuorumSigners` | programs/snapshot/LightValidator.hpp:110-123 | Accepted confirmations are a strong quorum of distinct producers |
| `LightClient.AcceptedBft` | programs/snapshot/LightValidator.hpp:225-264 | An accepted BFT change has strong quorums of both the current and the next producers on one pending block |
| `LightClient.ChangesIntersect` | programs/snapshot/LightValidator.hpp:110-123 | Two changes accepted under the same n BFT producers share at least floor(n/3)+1 signers |
| `LightClient.FindKey` | programs/snapshot/LightValidator.hpp:199-211 | The loop finds the first producer of that name; an empty list accepts anyone |
| `LightClient.FindBlockId` | programs/snapshot/LightValidator.hpp:277-285 | The loop finds the pending block of that number, if there is one |
| `LightClient.VerifyCommits` | programs/snapshot/LightValidator.hpp:225-264 | The loop accepts exactly the increasing lists of valid confirmations that reach the threshold |
| `LightClient.Validator.constructor` | programs/snapshot/LightValidator.hpp:126-142 | From a status row: its consensus and head, nothing pending, and the services of the next consensus if a change is under way, otherwise of the current one |
| `LightClient.Validator.UpdateVerifyState` | programs/snapshot/LightValidator.hpp:270-276 | The signature services become those of the next consensus |
| `LightClient.Validator.VerifyCft` | programs/snapshot/LightValidator.hpp:213-224 | A CFT change is confirmed by a signature on the committing header with the key of one of the current producers |
| `LightClient.Validator.VerifyBft` | programs/snapshot/LightValidator.hpp:225-264 | A BFT change is confirmed by both lists of producers; the whole new state |
| `LightClient.Validator.Push` | programs/snapshot/LightValidator.hpp:160-198 | A block is accepted exactly when every check passes, with the new state and the change row of the specification |
| `LightSnapshot.RowsFollow` | programs/snapshot/LightValidator.hpp:160-198 | In every accepted run changes do not overlap, and an unfinished one comes last |
| `LightSnapshot.KeptRun` | programs/snapshot/LightValidator.hpp:160-285 | Any selection of an accepted run that keeps the first, committed and last block of each change, with its proof, is accepted with the same rows and consensus |
| `LightSnapshot.WriteChangeBlocks` | programs/snapshot/create-snapshot.cpp:91-176 | The loops write exactly the specified numbers, once each and in increasing order, or abort |
| `LightSnapshot.KeptExactly` | programs/snapshot/create-snapshot.cpp:91-176 | All that a run needs is written if and only if every row is good |
| `LightSnapshot.LoadIsKeep` | programs/snapshot/load-snapshot.cpp:117-168 | Loading numbers that are kept, in order, gives the kept blocks of a run up to any end |
| `LightSnapshot.VerifyHeaders` | programs/snapshot/load-snapshot.cpp:117-168 | The loop hands the validator the numbers after its head and before the head of the snapshot, in order |
| `LightSnapshot.SnapshotSuffices` | programs/snapshot/create-snapshot.cpp:91-176 | For every increasing accepted run: what the writer keeps up to the head, and the loader hands over before the head, gives the rows and the consensus of the run before the head if and only if every row is good |
| `LightSnapshot.HonestRows` | programs/snapshot/LightValidator.hpp:213-264 | When no header claims to commit a block after itself, every change commits a block no later than its last |
| `LightSnapshot.SnapshotOfHonestChain` | programs/snapshot/create-snapshot.cpp:91-176 | Nothing is lost from a chain with honest headers, unless the writer aborts at a gap in the log |
| `LightSnapshot.DishonestCommit` | programs/snapshot/create-snapshot.cpp:147-156 | An accepted chain whose snapshot is not accepted in the same way, with a CFT header that commits a later block |
| `LightSnapshot.CompleteLog` | programs/snapshot/create-snapshot.cpp:105-130 | The writer aborts only if the log has a gap |
| `LightOrder.OrderExactly` | programs/snapshot/LightValidator.hpp:160-198 | In every accepted run the rows are in order if and only if the numbers of the blocks that begin and end changes are |
| `LightOrder.IncreasingIsAscending` | programs/snapshot/LightValidator.hpp:160-198 | They are in every accepted run of increasing blocks |
| `LightOrder.AllAfterHead` | programs/snapshot/LightValidator.hpp:168-198 | Every block of an accepted run is after the first head, which never advances |
| `LightOrder.OutOfOrder` | programs/snapshot/LightValidator.hpp:168-198 | An accepted run of blocks 5, 7, 1, 2, whose rows are not in order |

## Left out

- RegionHistory.RunSafe: is about runs up to an unsafe doubling, an evacuation over a piece larger than 2^24 bytes, or a push that takes the slot of an evacuation; `RegionSwitch.DoubleInvExactly`, `RegionHistory.EvacuationExactly` and `RegionSlots.PushExactly` say that the conditions are exact for what they keep, and `RegionUnsafe.LiveObjectReused`, `RegionLoss.LiveObjectLost` and `RegionClash.HeaderOverwritten` are runs beyond them, which need not go wrong in every case.
- RegionClash.HeaderOverwritten: ends with the accounting; that the position for the next item is then that of an item in use, and what later steps make of it, is not modelled. A loop that does not end, when the other item ends far before the range, is a step that cannot happen.
- ColdCache.RunRefines: has the same limits, and rings of a multiple of 8 bytes.
- FracGap.GaplessProper: is one way; whether a schema with a gap has a valid buffer with a pointer behind the fixed data depends on which of its types have values, and on room for the pointer.
- FracFault.GaplessInside: is one way, for the same reason.
- RegionUnsafe.LiveObjectReused: is a run on counters and sets, in which an evacuation ends when nothing alive is left in its source.
- RingAllocator.Ring.Swap: is told by its caller of each object whether it was moved or is dead, as in the source; in the cache this is `CacheRuns.CanPass`.
- GrisuTable.FindCachedPow10: takes any first guess in the table; `GrisuTable.FirstGuessInTable` covers every rounding of the product by less than 1.
- FracCover.ValidCovers: counts the parts of the value that use a byte; the parser itself reads the size of an object again for every member.
- Grace periods of the region allocator and of rings are tokens that wait for the sessions that were open; that the queue keeps them is `GcProtocol.GracePeriod`.
- An object that is released while it is being copied into the cold file: its copy stays counted until its region is evacuated.
- Memory ordering: atomic operations are sequentially consistent steps, as the comments of the source argue.
- `load_queue`, crash recovery, durability and the mapping of files.
- `get_stats`, resizing of rings and `unsafe_resize`.
- Expressions with `push_object_address`, `implicit_value`, `stack_value` and wasm locations, whose meaning depends on the debugger; DIE parsing, ELF headers and symbol tables.
- The header of a line program (its tables of files and directories).
- The packer, which is in templates of another header: what it has to produce is stated by `FracWire.Holds`.
- Buffers with unknown extensions, unused bits of scalars, and custom handlers in the parser; schema aliases, `SchemaBuilder::optimize` and the resolution of custom types.
- FracSchema.CompiledIsWire: leaves out types whose sizes add up to 2^32 bytes or more; `SchemaCompile.WrappedOffset` is such a schema.
- JSON tokens around a time point, and precisions other than seconds and microseconds.
- Hashes are injective: an identifier is the header itself. Signatures and the services that verify them are an abstract predicate. Copying of auth services, snapshot signatures and gzip are left out.
- HTTP, databases, processes, the Rust and TypeScript parts and the services: I/O, or plumbing that would only add easy members.
