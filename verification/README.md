# A verified model of the SMP boot kernel

The kernel boots every processor of an x86 machine, keeps them in step with a few hand-written synchronisation
primitives, and gives them memory through page tables that it edits one entry at a time. This project models those parts
and proves what they are for.

**Processors in step.** `Barrier`, `Collective` (with `SecondMaster`), `Handshake`, `BootRendezvous` (with
`RendezvousExact` and `BootStartup`), `HeapLock` and `Shootdown` are step machines: a state, one deterministic step per
shared load, store or atomic operation of one CPU, and a schedule that picks the next CPU at will (`Machine`). The
number of CPUs is a parameter. Non-atomic updates such as `epoch++`, `flags |= ...`, `cpu_online++` or
`next_virt_page++` are two steps. Memory is sequentially consistent, as the fences around the barrier's accesses ask
for. A delay is any number of steps of other CPUs, and the wake-up interrupt makes a sleeping CPU look at its flag
again. Every claim holds after every schedule, so for every interleaving, every number of episodes, rounds and calls;
each rests on an inductive invariant. That something comes about means that it can be reached from every reachable
state; but for the endless `Handshake`, the steps or turns until then are bounded, too.

**Memory.** `Freemap` is the frame bitmap with its two cursors and its construction from the boot loader's memory
description, on 32-bit words. `PageTable` holds the processor's walk through the tables and what one changed entry does
to all walks; `AddressSpace` is the code that changes entries, which sees physical frames only through pd1, the table of
the window page and the window page itself; `Heap` allocates and reconfigures pages on top of it. Both layouts are
there, four levels of 512 entries and two levels of 1024. The four-level walk uses the frame allocator by its contract,
which is proved for 32-bit words: in 64-bit words the macros of `lib.h:49-54` shift an `int` and do not reach bits 32 to
63. The page tables are used by one CPU at a time, which is what `HeapLock` shows of `pt_mutex`; the calls of all CPUs
then have the effect of one sequence of calls, which is what `Heap` is about. `AddressSpace` keeps the frame that this
CPU's translation cache holds for the window page, because `map_temporary()` does nothing when the entry already
matches; `Shootdown` has the caches of all CPUs for the pages of the buffers.

**Arithmetic and buffers.** `Division` is the approximate 64-bit division of the 32-bit build, `Numbers` prints and
parses, `Screen` is the text screen with its scrollback log, byte by byte, with `Cursor` for where a sequence of calls
takes the cursor and the log line; `Madt` reads the processor table of the firmware.

## What the code does not promise

Where a promise fails, a concrete input is given and the condition under which it holds is proved for all inputs.

- In every collective round the CPUs of the mask need a barrier between `collective_only()` and `collective_end()`.
  Without it a CPU that fails to get the mutex can find its own number in a stale `coll_master` and act as a second
  master (`SecondMaster.OneMasterExactlyWhenMet`, for any number of rounds). `bench_hourglass_worker()` and
  `bench_worker()` have one; `bench_hourglass_hyperthread()` (`benchmark.c:351-359`) has two CPUs and none, so that two
  masters are possible there (`BenchmarksCanHaveTwoMasters`).
- Between two halts of a CPU there has to be a barrier with its waker: otherwise the CPU can halt again before the waker
  has seen it running, and both wait for ever (`TrappedForGood`). Every wake-up can return if and only if that barrier
  is there before every halt but the first (`WakeupReturnsExactlyWhenSynchronised`).
- The boot rendezvous succeeds if and only if `max` counts the bootstrap processor and those that got their wakelock
  (`MeetsExactlyWhenExact`). If it counts more, the bootstrap processor waits for ever at `main.c:169`
  (`BspWaitsForever`); an application processor that is given up and counts itself all the same gets there
  (`LateButCounted`). If it counts fewer, because a late store undoes other increments of `cpu_online`, an application
  processor can be in `main()` before the bootstrap processor has entered the barrier (`LateStoreLosesCount`), or nobody
  can move any more and nobody is in `main()` (`LateStoreLeavesAllStuck`). It is enough that every called processor is
  in time (`InTimeIsExact`), and as long as nobody has been given up that can still come about (`BootCanSucceed`); it is
  not necessary (`LateYetExact`).
- The division loses the upper bits of a divisor that is longer than the dividend (`LostBitsExamples`,
  `CloseExactlyWhen`).
- `heap_reconfig()` and `tlb_shootdown()` round address and size separately and miss the last page of some unaligned
  buffers, such as two bytes from 0xFFF on (`BoundaryMissed`). They do nothing for a buffer whose last page is the last
  of the address space, because the end of the range wraps to 0 (`CoveredExactlyWhen`).
- The overflow check of the scrollback log compares a line number with a number of bytes. The log holds 1024 lines, and
  all writes stay inside it if and only if each printable character finds the line below 1024
  (`LogStaysInsideExactlyWhen`, for every sequence of calls). The 1025th line is already outside
  (`ThousandLinesLeaveTheLog`).
- When memory runs out in a call, that CPU stops with `pt_mutex` taken and nobody ever gets it again (`StoppedForGood`,
  `RunsDry`). Otherwise every call is answered (`CallsAreAnswered`), and nothing else can hold one up
  (`StuckMeansStopped`).
- The registration of a memory region does not end if the frame number of its end needs more than 32 bits
  (`FrameLoopEndsExactlyWhen`), as for 2^44 bytes from 0 on (`RegionWithoutEnd`); the boot then stops there, and only
  then (`Freemap.FrameAllocator.MmInit`).

## Model

| member | source | states |
|---|---|---|
| Barrier.BarrierSafety | sync.c:116-148 | In every interleaving of any number of episodes, with the epoch unbounded or modulo any M >= 2: no CPU is past an episode that some CPU has not entered, CPUs in one episode hold the same epoch and distinct counts, each finished episode was ended by exactly one CPU, and no two CPUs are ending one. |
| Barrier.LeavesOnlyWhenAllEntered | sync.c:133-145 | The step by which a CPU leaves an episode happens only when every CPU has entered it. |
| Barrier.WrapIsInvisible | sync.c:121-144 | A barrier whose epoch wraps modulo M >= 2 goes step by step through the states of one with an unbounded epoch. |
| Barrier.WrapInvisibleExactlyFromTwo | sync.c:140-144 | That holds for every schedule if and only if M >= 2. |
| Barrier.OneValuedEpochMissesRelease | sync.c:144 | With a one-valued epoch a waiting CPU misses the release. |
| Barrier.NoDeadlock | sync.c:133-145 | When all CPUs are inside the barrier, some CPU can do more than spin. |
| Barrier.EpisodesComplete | sync.c:116-148 | For n CPUs, any epoch as above and any k: once more than n * (6 * k + 5) steps have done something all CPUs have completed k episodes, and from every reachable state they can all get there. |
| Collective.Reachable | sync.c:188-222 | The full invariant (rounds, mutex and its owner, flags, waker) holds after every schedule. |
| Collective.CollectiveRounds | sync.c:188-222 | In every interleaving of any number of rounds: one master at a time and one a round, taken from the mask; at the start of its next round each CPU left out has halted once and been woken once for each round that left it out and its flags are clear; no load/store update of a flags word overtakes another; when no CPU is in a round the mutex is free. |
| Collective.HaltCountIs | sync.c:188-204 | The rounds for which a CPU has halted are those of whose mask it is not. |
| Collective.RoundsComplete | sync.c:188-222 | No schedule goes on for ever and none gets stuck: the steps that do something are bounded, a state without one is the end of the last round, and the end stays reachable. |
| SecondMaster.TwoMasters | sync.c:194-219 | The first round in which two CPUs of a mask with CPU 0 do not meet between the two calls can have two masters at once. |
| SecondMaster.OneMasterExactlyWhenMet | benchmark.c:281-359 | For any number of rounds, each with CPU 0 in its mask and each with or without a meeting: there is one master at a time in every interleaving if and only if in each round the CPUs of the mask meet at a barrier between the two calls or there is only one of them. |
| SecondMaster.BenchmarksCanHaveTwoMasters | benchmark.c:351-359 | With more than four CPUs, after a round of CPU 0 alone and one of two CPUs that meet, the round of two CPUs that do not meet can have two masters. |
| Handshake.HandshakeSafe | smp.c:72-100 | With one waker, and a barrier before any selection of the halts: halter and waker never lose each other's flag update, each halt is answered by at most one wake-up, and smp_halt() is left only after a wake-up that saw this halt. |
| Handshake.WakeupReturnsExactlyWhenSynchronised | smp.c:86-100 | From every reachable state the waker can complete another smp_wakeup() if and only if a barrier separates every halt from the one before. |
| Handshake.TrappedForGood | smp.c:96-99 | For every halt without such a barrier there is a run to a double halt there after which the wake-up before it never returns. |
| BootRendezvous.WakelockEitherOr | apic.c:288-322 | Never both the application processor and the bootstrap processor get a wakelock, and after the start-up loop one of them got that of every called processor. |
| BootRendezvous.RendezvousSafe | main.c:166-199 | If max counts the bootstrap processor and those that got their wakelock: nobody is in main() before the bootstrap processor, which enters the barrier after all others, draws c == max and is the one that releases them, although max changes while they wait. |
| BootRendezvous.RendezvousNotStuck | main.c:166-199 | In that case one of them can move until all are in main(). |
| BootStartup.StartupEnds | main.c:166-188 | In every interleaving the bootstrap processor has stored max after 2 * n + 3 turns: neither an application processor nor one that the command line excludes holds it up. |
| BootStartup.BootCanSucceed | main.c:166-199 | From every reachable state in which nobody has been given up, all called processors and the bootstrap processor can get through the first barrier into main(). |
| RendezvousExact.MeetsExactlyWhenExact | main.c:166-199 | In every reachable state with the bootstrap processor waiting at main.c:169: whatever follows, nobody is in main() before the bootstrap processor, which draws max after all others and alone releases them, and some continuation brings all into main(), if and only if max counts the bootstrap processor and those that got their wakelock. |
| BootRendezvous.InTimeIsExact | main.c:166-188 | A sufficient condition: if the bootstrap processor obtained no wakelock, no increment of cpu_online is lost and max is exact. |
| RendezvousExact.LateYetExact | main.c:182-188 | A run that shows it is not necessary: the late processor has not counted itself when max is computed. |
| BootRendezvous.BspWaitsForever | main.c:169 | If max counts more, the bootstrap processor never enters the barrier. |
| BootRendezvous.LateButCounted | main.c:182-188 | A run in which a late processor makes that happen. |
| BootRendezvous.LateStoreLosesCount | main.c:182 | A run in which a late store makes max too small, and an application processor is in main() before the bootstrap processor has entered the barrier. |
| RendezvousExact.LateStoreLeavesAllStuck | main.c:166-199 | A run with the same late store after which no CPU can move and nobody is in main(). |
| Freemap.BitUpdate | lib.h:49-56 | Setting or clearing a bit of a 32-bit word changes that bit and no other. |
| Freemap.SetOne | mm.c:565 | Setting a frame's bit adds that frame to the free set. |
| Freemap.ClearOne | mm.c:151 | Clearing it removes that frame. |
| Freemap.FrameAllocator.Scan | mm.c:143-150 | Stops at the next set bit or at the end of the bitmap, and passes over no set bit. |
| Freemap.FrameAllocator.GetFreeFrame | mm.c:133-171 | Returns and removes the least free frame at or above the type's start; stops if and only if there is none or the type is not supported. No free frame lies between a type's start and its cursor, although both cursors share the bitmap. |
| Freemap.FrameAllocator.MmInit | mm.c:549-589 | For every memory description: it does not end if and only if the frame loop of some available region does not; otherwise the free frames are exactly those of the two descriptions, count is their number even where they overlap, and the walk over entries of any size ends. |
| Freemap.FrameAllocator.WalkMmap | mm.c:569-588 | The walk over the encoded map adds exactly the frames of its available regions, or does not end, exactly when the loop of one of them does not. |
| Freemap.BootFramesAre | mm.c:554-586 | A frame is registered if and only if it lies in [0x400, 0x80000) and ends within mem_upper kilobytes with bit 0 of the flags set, or lies in a type-1 entry of the map with bit 6 set, with 64-bit addresses and a 32-bit loop variable. |
| Freemap.EntryFields | mm.c:573-578 | The fields of a map entry are read at the packed offsets 0, 4, 12 and 20. |
| Freemap.MmapFramesAre | mm.c:573-586 | A frame is registered by the map if and only if it lies in [0x400, 0x80000) and between the first frame and the end of some type-1 entry, with addr and len in 64 bits and the loop variable in 32. |
| Freemap.PlainRegion | mm.c:578 | For regions below 2^44 bytes these are the frames that the region covers, and the loop ends. |
| Freemap.FrameLoopEndsExactlyWhen | mm.c:575-578 | The loop over the frames of a region ends if and only if its bound fits the 32-bit loop variable. |
| Freemap.RegionWithoutEnd | mm.c:578 | A region of 2^44 bytes whose registration does not end. |
| PageTable.TranslateFinds | mm.c:684-733 | In the tree the processor's walk finds the selected entry, writable if that entry is, or none, and never a huge page. |
| PageTable.SlotInjective | mm.c:233-282 | Different pages have different page table entries, because no table has two parents. |
| PageTable.PutTree | mm.c:286-293 | Changing a page table entry keeps the tree. |
| PageTable.PutAt | mm.c:286-293 | It is seen by the one path that ends there and by no other. |
| PageTable.LinkedTree | mm.c:234-242 | Linking a cleared frame that is no table behind an absent directory entry keeps the tree. |
| PageTable.LinkedAt | mm.c:234-242 | It changes what is found nowhere but at that directory entry. |
| PageTable.PathInjective | mm.c:65-100 | Different page numbers have different indices. |
| AddressSpace.PathIndices | mm.c:69-100 | The indices of a page number are those of the index functions. |
| AddressSpace.ShownOk | mm.c:181-204 | Turning the window to another frame changes the translation of the window page only. |
| AddressSpace.WindowWalk | mm.c:181-204 | In every valid state a store through the window page reaches the frame shown, and one through the page of its table that table. |
| AddressSpace.LinkOrder | mm.c:236-242 | Setting the entry, turning the window and clearing what the window shows has the effect of linking a cleared table: the window's own table is neither. |
| AddressSpace.NewTableOk | mm.c:234-281 | Making a table on the way keeps the tree, all page entries but the window's and all present directory entries; the table is a frame that was free. |
| AddressSpace.BootOk | start64.asm:121-161 | The boot tables of both layouts satisfy the invariant. |
| AddressSpace.BootWalk | start64.asm:121-161 | The walk takes the pages of the first table and those of the APICs at 0xFEC00000 and 0xFEE00000 to themselves, writable; in the 64-bit layout the APICs uncached. |
| AddressSpace.BootHeapEmpty | start64.asm:121-161 | They map no heap page. |
| AddressSpace.Space.BuildTables64 | start64.asm:121-161 | Writes the boot tables of the 64-bit layout over any memory contents. |
| AddressSpace.Space.BuildTables32 | mm.c:482-513 | Writes those of the 32-bit layout; frame 3 is not cleared, and gets the two entries of the APICs. |
| AddressSpace.Space.MmInit | mm.c:461-589 | Unless the registration of a region does not end, the invariant holds afterwards, the free frames are those registered, and no heap page is mapped. |
| AddressSpace.Space.MapTemporary | mm.c:181-204 | The window shows the given frame, whether or not the entry had to change. |
| AddressSpace.Space.Enter | mm.c:234-247 | Goes one level down, making the missing table from the least free frame; stops only when there is none. |
| AddressSpace.Space.MapFrameToAdr | mm.c:220-338 | An unmapped page gets the frame with the caching asked for, a mapped one is never replaced, every other page but the window keeps its entry, no present directory entry changes; it stops for huge pages and when no frame is left for a table. |
| AddressSpace.Space.ReconfAdr | mm.c:340-446 | A mapped page gets exactly the two caching bits, an unmapped one stays, every other page but the window keeps its entry; unsupported flags change nothing. |
| AddressSpace.Space.VirtToPhys | mm.c:684-775 | Returns the physical address that the processor's walk gives, or 0 if there is none; no huge page is met and only the window's entry changes. |
| AddressSpace.ProcessorFinds | mm.c:684-733 | What the processor finds for a page is its entry. |
| Heap.MapFlagsMean | mm.c:629-630 | The translated flags ask for the caching asked for and nothing else. |
| Heap.Heap.HeapAlloc | mm.c:622-644 | Gives out the next pages with the caching asked for, keeps all pages given out before; stops only when no data frame is left, or no table frame and the reserve was not free at boot. |
| Heap.Heap.HeapReconfig | mm.c:650-670 | For any address and size, with the wrap-around of pointers: the mapped pages visited get the caching asked for, all others keep theirs, and all keep their frames. |
| Heap.Heap.Serve | mm.c:614-670 | After any sequence of calls each heap page has the caching last asked for, and the heap invariant holds. |
| Heap.AfterIsLastAsked | mm.c:614-670 | After any sequence of calls the heap holds the pages from 0x400 on that were asked for, and each has the caching of the last call that allocated or visited it. |
| Heap.HeapPromise | mm.c:614-644 | In every state the invariant allows, the processor finds each heap page writable in a frame registered at boot, at or above 0x800, with its caching; no two pages share a frame, none is a table or free; the table and page limits hold. |
| Heap.BootAndServe | mm.c:461-670 | From the boot loader through any sequence of calls: the frames are those of the memory description, the heap keeps its promise and its limits, and as long as memory lasts every page has the caching last asked for. |
| Heap.ReserveBound | mm.c:135-139 | At most 1021 tables are made for the heap, 510 in the 32-bit layout. |
| Heap.TablesInReserve | mm.c:138 | If the reserve was free at boot all tables lie below 0x800 and one more would fit. |
| Heap.CoveredExactlyWhen | mm.c:661-666 | The visited pages cover the buffer if and only if it is empty, or its offset in the first page fits what rounding up the size leaves and the range ends before the last page of the address space does. |
| Heap.AlignedVisited | mm.c:661-668 | For a buffer that begins with a page and ends before the last one of the address space, the visited pages are exactly those that hold a byte of it. |
| Heap.VisitedExactlyWhen | mm.c:661-668 | For any address and size the visited pages are those below the wrapped sum of the rounded address and the least multiple of 4096 that holds the size. |
| Heap.BoundaryMissed | mm.c:661-666 | Two bytes across a page boundary, of which the second page is not visited. |
| HeapLock.CallsAreSerial | mm.c:632-642 | In every interleaving of any number of calls: one caller works at a time, none before the bitmap is built, the pages of finished allocations are disjoint and the page being mapped is beyond them. |
| HeapLock.CallsAreServed | mm.c:622-772 | In every interleaving of allocations, reconfigurations and lookups by any number of CPUs: each allocation returns what it returns when the requests are served one after the other in the order of the lock, and the next page and the caching of all pages are those of that sequence and, at each turn of a loop, of a part of the call that has the mutex. |
| HeapLock.CallsAreAnswered | mm.c:622-772 | In every reachable state in which no CPU has stopped for want of memory, every call can be answered as long as memory lasts: its request is the last one served and the mutex is free. |
| HeapLock.RequestsAreAnswered | mm.c:622-772 | So can any request of any CPU that is between calls. |
| HeapLock.CallsAreShort | mm.c:632-642 | In every interleaving a call does at most four steps for each turn of its loop and four more. |
| HeapLock.StuckMeansStopped | mm.c:632-642 | If no CPU in a call can do anything, memory has run out in one. |
| HeapLock.StoppedForGood | mm.c:146-148 | Then nobody ever gets the mutex again. |
| HeapLock.RunsDry | mm.c:159-161 | A run in which that happens. |
| HeapLock.NobodyEarlyExactlyWhenLocked | mm.c:455 | With more than one CPU, nobody comes before the bitmap is built if and only if the mutex starts locked. |
| Shootdown.NoStaleTranslation | payload.c:120-130 | With caches that may load any current entry at any time: no cached translation ever has another frame than the page table had, and once some CPU is behind the second barrier every CPU's cached translations are those of the updated page table. |
| Shootdown.StaleUntilShot | payload.c:120-130 | A run in which a CPU holds an old translation after the store, before it drops it. |
| Shootdown.SwitchCompletes | payload.c:120-130 | Whatever is cached or dropped meanwhile: the CPUs' own steps are bounded, a state in which none can do anything is the end, and from every reachable state all CPUs can get behind the second barrier. |
| Shootdown.BuffersSwitched | payload.c:120-130 | So for page-aligned buffers no CPU has a byte cached under anything but the caching just requested. |
| Shootdown.UpdatedAsRecached | payload.c:120-130 | The stores of CPU 0 through both bits of each page give the caching that heap_reconfig() promises for the range, page by page. |
| Division.Udivdi3 | lib.c:163-180 | Both loops end, and the result is the quotient of the shifted operands, shifted back; the final shift does not overflow. |
| Division.QuotientOfShifted | lib.c:165-179 | The dividend is shifted by the least number of places that brings it into 32 bits, the divisor too but no further than the dividend, and cut to 32 bits; if nothing is left of the divisor the processor traps. |
| Division.SmallDivisor | lib.c:163-180 | For 0 < d < 2^32: r <= n/d < r + 2^c for the least c that brings n into 32 bits, and r is the exact quotient when n < 2^32, too. |
| Division.LongDivisor | lib.c:172-178 | For a longer d of at most the bit length of n: r - 1 <= n/d < r + 2^c. |
| Division.CloseExactlyWhen | lib.c:163-180 | The bound holds if and only if d is below 2^32, or not longer than n, or what the truncation leaves of it is more than half the shifted n. |
| Division.LostBitsExamples | lib.c:176-177 | 1 / 2^32 traps, 100 / (2^32 + 1) gives 100. |
| Numbers.Itoa | screen.c:348-390 | From any offset of the buffer on it leaves sign, digits and a final 0, and nothing else changed. |
| Numbers.ReverseInPlace | screen.c:379-389 | Reverses a range of the buffer in place. |
| Numbers.DigitsAre | screen.c:367-374 | The digits written for n denote n, have no leading zero and no sign. |
| Numbers.TextDenotes | screen.c:348-390 | Only a negative number in decimal gets a sign; the digits denote its magnitude, or in hexadecimal and unsigned its two's complement. |
| Numbers.Atoi | lib.c:112-141 | Returns the wrapped value of the longest run of digits behind sign and base prefix. |
| Numbers.ParsedMeans | lib.c:112-141 | For any text of sign, base prefix, digits of that base and whatever follows: the value of the digits with that sign, wrapped to 32 bits. |
| Numbers.DigitsOfBase | lib.c:129 | The digits of base 8, 10 and 16. |
| Numbers.RoundTripDecimal | lib.c:112-141 | The decimal text gives n for every n with \|n\| < 2^31. |
| Numbers.PrintAndRead | screen.c:348-390 | atoi() of the buffer that itoa() filled in decimal returns n for every n with \|n\| < 2^31. |
| Numbers.RoundTripOctal | lib.c:120-129 | Octal digits of n behind a 0 give n for 0 <= n < 2^31. |
| Numbers.RoundTripUpper | lib.c:123-136 | So do capital hexadecimal digits behind "0X". |
| Numbers.RoundTripHex | lib.c:112-141 | So do "0x" and the hexadecimal text. |
| Numbers.PrintAndReadHex | screen.c:459-463 | atoi() of the buffer that got "0x" and then itoa() in hexadecimal returns n for 0 <= n < 2^31. |
| Screen.WriteAgrees | screen.c:219-230 | Writing at the cursor keeps screen and log in agreement. |
| Screen.TypedShows | screen.c:219-223 | The character and its colour appear in the two bytes of the cursor's cell, and nothing else changes. |
| Screen.LoggedAt | screen.c:205-230 | The log changes at the offsets computed and nowhere else, to the character or to the overflow message. |
| Screen.ScrollAgrees | screen.c:75-96 | So does moving the screen up, with every row one log line further. |
| Screen.Screen.Scroll | screen.c:75-96 | Rows 2 to 24 move up, row 24 is blank, the status row stays. |
| Screen.Screen.PutCh | screen.c:168-247 | The cursor goes where it is computed to go, the log gets the character at its offset, or the overflow message at its start, and nothing else, and the status row stays. Unless the line number overflows, the character appears at the cursor, the screen moves up below the last row, and every row 1..24 goes on to agree with log line buf_y - csr_y + r. |
| Screen.Screen.Locate | screen.c:157-165 | A locate in range moves cursor and log line alike and keeps the agreement. |
| Screen.Screen.InitVideo | screen.c:288-293 | Rows 1..24 are blank in the current colour, the status row keeps its characters and gets its own. |
| Screen.Screen.InitVideoScrollback | screen.c:298-304 | The agreement begins if and only if all rows from the cursor on are blank, as they are if those below the cursor were before. |
| Screen.Screen.Perform | screen.c:157-247 | Any sequence of putch() and in-range locate() whose log writes stay inside ends at the place and with the log computed and keeps the status row, and the agreement too unless the line number overflows on the way. |
| Screen.Memcpy | lib.c:52-59 | The forward copy, byte by byte, is right for a source behind an overlapping destination. |
| Screen.Memsetw | lib.c:69-79 | Fills cells of two bytes and nothing else. |
| Cursor.LogStaysInsideExactlyWhen | screen.c:209-226 | For every sequence of putch() and in-range locate(): all writes lie inside the log if and only if the line is below 1024 at each printable character, so the check for too many lines changes nothing. |
| Cursor.ColumnIs | screen.c:174-241 | Where each character takes the column: tab stops, backspace, carriage return, line feed, and the break at the right edge. |
| Cursor.ThousandLinesLeaveTheLog | screen.c:209-226 | 1024 line feeds and a letter after init_video_scrollback() write one character behind the end of the log. |
| Madt.CheckSum | boot32.c:390-403 | The sum of all bytes modulo 256. |
| Madt.SumConcat | boot32.c:390-403 | Sums of parts add up. |
| Madt.ChecksumByte | boot32.c:390-403 | One byte, and no other, completes any table to a good checksum: what is missing to a multiple of 256. |
| Madt.HwInfo.ReadMadt | boot32.c:410-454 | Inverts serialisation: for every table laid out by the specification it ends with the enabled local APIC ids and the I/O APICs in table order; for a bad checksum nothing changes. |
| Madt.IdsOfOne | boot32.c:425-450 | A local APIC counts if bit 0 of its flags is set, an I/O APIC always, and no other record. |
| Madt.IdsConcat | boot32.c:425-450 | They are listed in table order. |
| Madt.NextRecord | boot32.c:425-450 | Stepping by a record's length byte leads to the encoding of the remaining records. |
| Madt.RecordFields | acpi_struct.h:172-194 | The fields read at their offsets are those encoded. |
| Bytes.LittleEndian | acpi_struct.h:172-194 | Fields are read with the least significant byte first. |

## Left out

- The two barriers inside a collective round: in `Collective` they are an arrival and a departure that waits for all arrivals; `Barrier.LeavesOnlyWhenAllEntered` and `Barrier.EpisodesComplete` are what justifies that. The same holds for `Shootdown` and `Handshake`.
- Collective.CollectiveRounds: every mask names an online CPU, as all callers' masks do; with no such CPU all would halt and nobody would be left to wake them.
- BootRendezvous.RendezvousSafe: there are at most MAX_CPU processors, as the tables of the kernel allow.
- HeapLock.CallsAreServed: whether memory runs out is an input of the step that needs a frame; `Heap.Heap.HeapAlloc` says when it does.
- Weaker memory orders: all machines are sequentially consistent, and compiler reordering is not modelled.
- Freemap.BitUpdate: does not cover 64-bit words, because the macros do not support bits 32 to 63 of them.
- The stores to the bit-fields of one directory or page table entry (`p`, `rw`, `frame`, `pwt`, `pcd`) are one step in `AddressSpace`, except in `map_temporary()`; `Shootdown` has the stores to `pwt` and `pcd` as two steps.
- The accessed, dirty, user, global, PAT and no-execute bits of entries, and huge pages as a mapping feature: nothing creates them; they are shown not to be met.
- AddressSpace.Space.MapFrameToAdr: speaks of one CPU's window; the window translations cached by other CPUs are not modelled, because the code invalidates only the local one.
- Numbers.Atoi: numbers beyond 32 bits wrap around; in C their overflow is undefined.
- Screen.Screen.PutCh: a printable character that is logged needs a line below 1024, because the code writes beyond the log from there on, and what it does there is not modelled. Where the text of the overflow message ends up on the screen is not stated. The hardware cursor and the 32-bit overflow of `buf_y*80` are not modelled.
- Cursor.LogStaysInsideExactlyWhen: every `locate()` stays on the screen, as all callers' do; the code checks nothing there.
- Madt.HwInfo.ReadMadt: a good checksum comes with a table by the specification, at most 16 enabled processors and 1 I/O APIC, because the code checks neither lengths nor array bounds.
- `printf`, `smp_status` and timing inside the synchronisation code; interrupts other than the wake-up.
- Command-line parsing, MP tables, the other ACPI tables, PCI, keyboard, menus and the benchmarks themselves: hardware access or simple table walks.
