# Verified models of the scull drivers, IPv4 list receive and two kernel-module cores

This Dafny project models the parts of the repository that keep state in complicated ways and
proves what they promise:

- **scullpipe** (`ldd/scull/pipe.c`): the circular buffer as an object over a byte array
  (`Ring`, `PipeDevice`), and the lock/sleep/wake protocol as a transition system with any
  number of readers, writers and opens (`PipeProtocol`, `PipeOpens`, `PipeCalls`). The unlocked
  tests before sleeping are modelled load by load, an open stores the two pointers one after the
  other, and a pointer stands at the end of the buffer for one step before it is wrapped.
- **scull** (`ldd/scull/main.c`): the sparse file kept in a linked list of arrays of quanta. Kernel
  memory is an explicit map of live blocks in which every allocation may fail and only live
  blocks may be freed (`Addressing`, `ScullLayout`, `ScullDevice`). `ScullFile` is the flat
  file this implements, with runs over any number of open files; `ScullFiles` ties the two.
- **scullp** (`ldd/scullp/main.c`, `ldd/scullp/mmap.c`): the page-based variant with memory
  mapping (`Scullp`, `ScullpDevice`).
- **Access control** (`ldd/scull/access.c`): single open (`SingleOpen`), open by user (`UidOpen`),
  blocking open (`BlockingOpen`), one private device per terminal (`PrivateDevices`).
- **IPv4 receive** (`linux/net/ipv4/ip_input.c`): list receive against single receive
  (`IpReceive`) and the keyword scan (`KeywordScan`).
- **Two smaller cores**: the intrusive list (`m_modules/ds/list.h`, `IntrusiveList`) and the
  segment copy loop of the block device (`m_modules/blk_dev/blkdev.c`, `BlockRequest`).

`dafny verify dfyconfig.toml` checks the whole project.

## Assumptions

- Integers are unbounded; `quantum * qset` and list indices are taken to fit the C types. The one
  place where 64-bit wrap-around matters, the clamp of the block device, is written out.
- Quantum, qset and buffer size are positive; the pipe's buffer size does not change while a
  buffer exists.
- Reads, writes, trims and page faults of scull and scullp devices are atomic under the device lock.
- scullp's mmap, vma open and vma close, and the ioctl commands, take no lock in the source. That
  they are atomic with respect to the other operations too is an assumption of its own; behind
  `MappingsAreCounted`, `MappedPagesStay` and `FaultsAreStable` it matters, because trimming tests
  the mapping count before it frees.
- Memory is sequentially consistent. In the unlocked tests of the pipe, the two loads of one
  comparison or subtraction come in either order. The pointers are plain fields, so a writer that
  subtracts them after comparing them may load either one again or use the value at hand again.
- User copies transfer a prefix and fail if that is not everything; how much can be copied is a
  parameter (`reachable`). A wake-up reaches every thread on its queue.
- In `IpReceive`, everything outside the receive path (header checks, netfilter, L3 master devices,
  the three route lookups, options, settings) is a function of the packet.

## Where the code does not do what one might expect

Each of these is stated with its exact condition:

- An open empties the pipe without waking writers, and a writer that looks between its two stores
  sees pointers that belong to no state of the ring. So an open can strand a writer
  (`OpenCanStrandAWriter`). It cannot, in any continuation, exactly if no writer on the queue without
  a wake-up coming has loads that could still end in "full" and, unless the read pointer is 0 and
  the ring is not full, no writer is about to join the queue (`OpenIsSafe`, `OpenLosesNoWakeupIff`).
- A pipe of one byte is empty and full at once (`OneByteBufferDeadlocks`); two bytes are enough.
- The single-open device can refuse an open although nobody holds it (`FreeDeviceMayRefuse`); it
  accepts exactly if nobody holds it and nobody is backing out (`OpenSucceedsIff`).
- scullp computes addresses with the device's order but allocates list items behind the first with
  order 0. A copy stays inside its block exactly if the order is 0, the position is in the first
  item, or the copy ends within the first page of its quantum (`CopyStaysInPages`); some do not
  (`SomeCopiesLeaveTheirPages`). Page faults look where read and write look exactly if the order is
  0 (`FaultAgreesWithReadWriteIff`).
- List receive equals single receive exactly if no hint changes how a later packet fares
  (`ListReceiveIsSingleReceiveIff`). That the full lookup, early demux and the hints that packets of
  the same device leave behind find the same routes is not enough, since a packet that took the hint
  skips early demux and gets no socket (`SocketsCanDiffer`, in an environment that routes by address
  and whose hints hand on their route); then both still deliver the same packets with the same routes
  in the same order (`ListReceiveUpToSocket`).
- The keyword scan is not a substring search: it lets some occurrences pass (`SomeOccurrencesPass`),
  namely in exactly the packets that are a sequence of failed attempts (`PassesIff`).
- The block device's clamp is safe exactly if the position has not passed the end
  (`ClampIsSafeIff`); its test for a negative length can never fire.

## Model

| member | source | states |
|---|---|---|
| Ring.SpaceFreeComplementsContents | ldd/scull/pipe.c:184-189 | the computed free space is always the buffer size minus 1 minus the queue length |
| Ring.ReadOutcome | ldd/scull/pipe.c:141-151 | a read removes exactly the bytes it returns from the front of the queue; it is short only at the end of the queue or of the buffer |
| Ring.WriteOutcome | ldd/scull/pipe.c:206-218 | a write appends exactly the accepted prefix, never fills the reserved slot, and is short only at the end of the space or of the buffer |
| Ring.ReadTakesFront | ldd/scull/pipe.c:141-151 | one read takes the least of what is asked for, what is queued and what is left of the buffer |
| Ring.WriteCountIs | ldd/scull/pipe.c:206-210 | one write accepts the least of what is offered, what fits and what is left of the buffer |
| Ring.FreePartIsInvisible | ldd/scull/pipe.c:212-215 | a failed copy into the free part does not change the queue |
| PipeDevice.ScullPipe.Open | ldd/scull/pipe.c:64-93 | allocates once, empties the queue on every open, counts readers and writers, changes nothing when memory is out |
| PipeDevice.ScullPipe.Release | ldd/scull/pipe.c:97-114 | the buffer goes away exactly with the last reader and writer |
| PipeDevice.ScullPipe.Read | ldd/scull/pipe.c:121-158 | refines removal from a byte queue; EAGAIN iff the queue is empty, EFAULT iff the buffer is shorter than the least of count, queue and rest of the ring; errors change nothing |
| PipeDevice.ScullPipe.Write | ldd/scull/pipe.c:191-229 | refines appending to a byte queue; EAGAIN iff one slot is left, EFAULT iff fewer bytes can be loaded than would be stored; errors keep the queue |
| PipeDevice.ScullPipe.FreeSpace | ldd/scull/pipe.c:184-189 | the method computes buffer size - 1 - queue length |
| PipeDevice.ScullPipe.Poll | ldd/scull/pipe.c:231-250 | readable iff something is queued, writable iff a byte would fit |
| PipeProtocol.RingInvPreserved | ldd/scull/pipe.c:64-229 | every step of every read, write and open keeps pointers in range, the lock exclusive, and queue conservation, unsafe opens included |
| PipeProtocol.InvPreserved | ldd/scull/pipe.c:71-189 | every step keeps, for each queued thread, that its loads so far cannot send it to sleep wrongly or a wake-up is owed; the first store of an open if the open is safe |
| PipeProtocol.PipeIsFifo | ldd/scull/pipe.c:64-229 | in every run, since the last open and except between its two stores, bytes accepted = bytes delivered + queue; free space complements the queue |
| PipeProtocol.NoRunLosesAWakeup | ldd/scull/pipe.c:129-181 | in every run with safe opens, a sleeping thread is rightly blocked or a wake-up for it is pending |
| PipeProtocol.NeverBothAsleep | ldd/scull/pipe.c:129-181 | with two slots or more, a reader and a writer never sleep at once unless a wake-up is pending |
| PipeProtocol.StuckOnlyWhenNothingCanBeDone | ldd/scull/pipe.c:121-229 | if no call can take a step, all are asleep, and either all read an empty ring or all write a full one |
| PipeCalls.TestAnswers | ldd/scull/pipe.c:129-164 | the test under the lock lets a reader through iff something is queued and a writer iff a byte fits |
| PipeCalls.ReadMoves | ldd/scull/pipe.c:141-151 | a read that got through delivers exactly the front of the queue, something if asked for anything, short only at the end of queue or buffer |
| PipeCalls.WriteMoves | ldd/scull/pipe.c:206-218 | a write that got through appends exactly the accepted prefix, something if given anything, short only at the end of space or buffer |
| PipeCalls.CallsEnd | ldd/scull/pipe.c:126-228 | a call ends only by returning after its wake-up, by giving up if nonblocking, by a fault, or by a signal while it waits for lock or queue |
| PipeCalls.GivesUpOnlyIfBlocked | ldd/scull/pipe.c:129-169 | in every run, a call that answers EAGAIN is nonblocking and its last test found the queue empty (reader) or full (writer) |
| PipeCalls.ReturnsOnlyAfterMoving | ldd/scull/pipe.c:145-228 | in every run, a call that returns a count has moved bytes and since then only wrapped the pointer and dropped the lock |
| PipeOpens.OpenLosesNoWakeupIff | ldd/scull/pipe.c:81-90 | for an open that has the lock: no continuation with this one reset loses a wake-up iff no writer is about to look while the stores matter and no queued writer's loads can end in "full", unless a reader is about to wake them |
| PipeOpens.OneByteBufferDeadlocks | ldd/scull/pipe.c:184-189 | a run with one byte in which a reader and a writer both sleep for good |
| PipeOpens.OpenCanStrandAWriter | ldd/scull/pipe.c:81-90 | a run in which an open leaves a writer asleep on an empty ring |
| PipeOpens.SafeStable | ldd/scull/pipe.c:71-83 | a safe open stays safe under every step of other threads until it stores its pointers |
| Addressing.LocatePosition | ldd/scull/main.c:311-314 | address to position to address is the identity |
| Addressing.PositionLocate | ldd/scull/main.c:311-314 | position to address to position is the identity, with slot and offset in range |
| Addressing.SameSlotIff | ldd/scull/main.c:311-324 | positions share item and slot iff they lie in the same stretch of quantum bytes |
| ScullLayout.AppendNodeKeepsShape | ldd/scull/main.c:264-288 | linking a new node keeps the memory layout, all bytes and all other devices' blocks |
| ScullLayout.AttachSlotsKeepsShape | ldd/scull/main.c:360-365 | the same for a new slot array |
| ScullLayout.AttachQuantumKeepsShape | ldd/scull/main.c:366-370 | the same for a new quantum, whose bytes alone appear |
| ScullLayout.StoreChangesExactly | ldd/scull/main.c:371-378 | a store changes the bytes of its range and no byte of any other slot |
| ScullLayout.OtherDeviceKept | ldd/scull/main.c:338-389 | an operation on one device keeps the shape and every byte of any other |
| ScullLayout.FreeQuantum | ldd/scull/main.c:70-71 | the next quantum to free is live and is the only block that goes |
| ScullLayout.NoMoreQuanta | ldd/scull/main.c:69-76 | after its quanta, an item's array and node are live, and freeing them completes the item |
| ScullLayout.AllFreed | ldd/scull/main.c:68-77 | after the last item, exactly the device's blocks are gone |
| ScullDevice.ScullDev.Follow | ldd/scull/main.c:264-288 | returns node n or fails with an allocation; keeps the existing prefix and all bytes; allocates nothing if the node exists |
| ScullDevice.ScullDev.Write | ldd/scull/main.c:338-389 | under any allocation failure, a write is a step of the sparse file, keeps the layout and other devices; ENOMEM iff an allocation failed, else EFAULT iff fewer bytes can be loaded than one call reaches |
| ScullDevice.ScullDev.Read | ldd/scull/main.c:294-336 | a read is a step of the sparse file and changes neither structure nor memory, allocating nothing; EFAULT iff the buffer is shorter than what is there to copy |
| ScullDevice.ScullDev.Trim | ldd/scull/main.c:62-83 | frees each block of the device once, none other, leaves none, and takes over the geometry |
| ScullDevice.ScullDev.Open | ldd/scull/main.c:240-255 | empties the device iff opened for writing only |
| ScullDevice.ScullDev.WriteAll | ldd/scull/main.c:338-389 | writing the remainder in a loop stores all bytes in exactly as many calls as quanta touched, or an allocation failed |
| ScullDevice.ScullDev.ReadAll | ldd/scull/main.c:294-336 | reading in a loop returns the stored bytes, in as many calls as quanta touched if the range is complete |
| ScullDevice.ScullDev.RoundTrip | ldd/scull/main.c:294-389 | write all, read all: the same bytes return unless an allocation failed; nothing outside the range changes |
| ScullDevice.StoreIsWrite | ldd/scull/main.c:371-384 | growing around a position and storing there is one write of the flat file, complete or cut short by a fault |
| ScullDevice.ReadOutcome | ldd/scull/main.c:306-331 | the bytes found through item, slot and offset are the flat file's bytes |
| ScullDevice.CoversWrite | ldd/scull/main.c:379-384 | after a write the list reaches the item of the last byte |
| ScullDevice.CoversRead | ldd/scull/main.c:306-317 | a position below the size is in an item the list has |
| ScullFile.CallsAreQuanta | ldd/scull/main.c:322-324 | the number of calls for a range is the number of quanta it touches |
| ScullFile.FileRemembersWrites | ldd/scull/main.c:338-389 | in every run the file holds the last value written to each position since the last trim |
| ScullFile.ReadsReturnLastWritten | ldd/scull/main.c:294-389 | in every run of open, read, write, seek, ioctl and trim, reads return the last value written |
| ScullFiles.OpenFiles.Open | ldd/scull/main.c:240-255 | is a step of a file run; starts at 0, and empties the device with the module-wide geometry iff write-only |
| ScullFiles.OpenFiles.Read | ldd/scull/main.c:294-336 | is a step of a file run; moves the position by what it returns; fails iff the buffer is too short |
| ScullFiles.OpenFiles.Write | ldd/scull/main.c:338-389 | is a step of a file run; moves the position by what it stored; ENOMEM iff an allocation failed, else EFAULT iff fewer bytes can be loaded than one call reaches |
| ScullFiles.OpenFiles.Llseek | ldd/scull/main.c:524-548 | is a step of a file run; from the start, the position or the end, whichever is named; refuses unknown origins and negative positions |
| ScullFiles.OpenFiles.Ioctl | ldd/scull/main.c:420-495 | sets the module-wide quantum and qset; the device keeps its own |
| PrivateDevices.Resolve | ldd/scull/access.c:253-256 | what a key resolves to is a listed device with that key |
| PrivateDevices.ResolveFinds | ldd/scull/access.c:249-273 | with distinct keys, resolving finds exactly the listed devices |
| PrivateDevices.CloneList.LookFor | ldd/scull/access.c:249-273 | finds or creates the device of a key; keys stay distinct and keep their devices |
| PrivateDevices.CloneList.Open | ldd/scull/access.c:275-299 | EINVAL iff there is no terminal, ENOMEM iff the key is unknown and memory is out; empties the device iff new or write-only; all other devices keep their files |
| PrivateDevices.CloneList.Write | ldd/scull/access.c:315-323 | a write through one key is a step of that key's file with the errors and position of a scull write, and leaves every other file alone |
| PrivateDevices.CloneList.Read | ldd/scull/access.c:315-323 | a read through one key is a read of that key's file with the errors and position of a scull read, and changes no file |
| PrivateDevices.CloneList.Replay | ldd/scull/access.c:249-323 | any sequence of opens, reads and writes through any keys is served request by request, each as a step of its own key's file with all others unchanged; keys keep their devices throughout |
| PrivateDevices.KeysAreIsolated | ldd/scull/access.c:232-243 | after any requests, the file of a key is the result of a run of that key's own requests and outcomes alone |
| PrivateDevices.CloneList.LiveIffReachable | ldd/scull/access.c:232-243 | a block is live iff a listed device reaches it through its pointers |
| PrivateDevices.CloneList.Cleanup | ldd/scull/access.c:403-408 | afterwards the list is empty and no block is left in memory |
| Scullp.CopyStaysInPages | ldd/scullp/main.c:230-251 | a write's copy stays inside the block at its position iff order 0, first item, or it ends within one page |
| Scullp.SomeCopiesLeaveTheirPages | ldd/scullp/main.c:230-251 | a fresh device and a write whose copy is longer than its block |
| Scullp.WriteChangesExactly | ldd/scullp/main.c:211-263 | a write, failed or not, changes exactly the bytes it stores; a block it allocates reads as zeroes where nothing was |
| Scullp.WriteReports | ldd/scullp/main.c:233-262 | ENOMEM iff a needed allocation failed, EFAULT iff the copy was cut short; errors keep the size |
| Scullp.ReadReturnsBytes | ldd/scullp/main.c:163-207 | a read returns exactly the bytes there are up to count, size or quantum, none in a hole, changes none, and gives EFAULT iff the buffer is shorter than that |
| Scullp.WrittenBytesStay | ldd/scullp/main.c:211-263 | in every run, a stored byte is there until another write stores at its position or the device is trimmed |
| Scullp.FaultShowsBytes | ldd/scullp/mmap.c:60-95 | at order 0, a fault finds a page iff the position is below the size and no hole, and the page holds the device's bytes |
| Scullp.RoomKeepsPages | ldd/scullp/main.c:230-245 | making room keeps every page in its slot, shares none, adds at most one zeroed page, and fails iff a needed allocation did |
| Scullp.FaultAgreesWithReadWriteIff | ldd/scullp/mmap.c:70-85 | faults and read/write look in the same slot for every position iff the order is 0 |
| Scullp.FaultShowsWhatReadReturns | ldd/scullp/mmap.c:70-90 | at order 0 a fault below the size gives the page whose bytes a read returns, or both find a hole |
| Scullp.FaultShowsWhatWasWritten | ldd/scullp/main.c:211-258 | what a write stored is in the page a fault finds, at the same offset |
| Scullp.StepKeepsRunInv | ldd/scullp/mmap.c:33-45 | every operation keeps the mapping count and order 0 of mapped devices, and moves no mapped page |
| Scullp.MappingsAreCounted | ldd/scullp/mmap.c:33-45 | in every run the count is the number of live mappings, mapped devices have order 0, and the allocated pages are exactly those in the slots, each in one |
| Scullp.MappedPagesStay | ldd/scullp/main.c:413-441 | while some mapping is live, geometry stays and every page stays allocated in its slot |
| Scullp.FaultsAreStable | ldd/scullp/mmap.c:60-95 | while mapped, later faults on an offset find the page the first one found |
| ScullpDevice.Walk | ldd/scullp/mmap.c:78-82 | the subtract-and-walk loop ends at quotient and remainder, or past the end of a shorter list |
| ScullpDevice.ScullpDev.Follow | ldd/scullp/main.c:146-157 | appends zeroed items up to the wanted one |
| ScullpDevice.ScullpDev.Write | ldd/scullp/main.c:211-263 | implements the write function, for every copy that stays inside its block, and keeps the device well formed and its pages in place |
| ScullpDevice.ScullpDev.Read | ldd/scullp/main.c:163-207 | implements the read function, faults included, which may grow the list but moves no page |
| ScullpDevice.ScullpDev.Nopage | ldd/scullp/mmap.c:60-95 | finds the page of read and write at order 0, absent iff that slot is a hole or beyond the size |
| ScullpDevice.ScullpDev.Mmap | ldd/scullp/mmap.c:106-119 | refuses a positive order, otherwise counts one mapping more |
| Scullp.TrimLeavesNothing | ldd/scullp/main.c:413-441 | trimming an unmapped device leaves no page, no byte and size 0, and takes over order and qset |
| Scullp.TrimEmpties | ldd/scullp/main.c:413-441 | in every run, after a trim the device is empty and has the order and qset of the last ioctl |
| Scullp.StepKeepsGeometry | ldd/scullp/main.c:211-263 | no other step changes order or qset, and only a successful write changes the size, to where it ended if that is further |
| Scullp.MappingsChange | ldd/scullp/mmap.c:33-45 | a mapping is added iff the order is 0; only mapping, unmapping and inheriting change the mappings |
| Scullp.CopyReaches | ldd/scullp/main.c:245-249 | one call copies up to the next multiple of the block size |
| Scullp.OrdersAdd | ldd/scullp/main.c:168 | block sizes double with each order, from one page |
| ScullpDevice.ScullpDev.Trim | ldd/scullp/main.c:413-441 | refuses while mapped and changes nothing; otherwise frees every page, each while it is still allocated, leaves none, sets the size to 0 and takes over the geometry |
| SingleOpen.AtMostOneHolder | ldd/scull/access.c:53-75 | in every interleaving the counter is 1 - holders - opens backing out, so there is at most one holder |
| SingleOpen.OpenSucceedsIff | ldd/scull/access.c:59-62 | an open succeeds iff nobody holds the device and nobody is backing out |
| SingleOpen.FreeDeviceMayRefuse | ldd/scull/access.c:59-62 | a run in which an open fails although nobody holds the device |
| UidOpen.ScullUid.Open | ldd/scull/access.c:103-128 | refused iff open and the owner is neither the caller's uid nor its euid and the caller cannot override; the first opener becomes owner |
| UidOpen.ScullUid.Release | ldd/scull/access.c:130-136 | one handle less, all others still share with the owner |
| BlockingOpen.InvPreserved | ldd/scull/access.c:174-210 | every step keeps lock, count, ownership and the justification of every sleeper |
| BlockingOpen.HandlesShareTheOwner | ldd/scull/access.c:165-196 | in every interleaving the count is the number of handles and every handle shares with the owner |
| BlockingOpen.OwnerIsConstantWhileOpen | ldd/scull/access.c:186-188 | the owner does not change while a handle is open |
| BlockingOpen.FirstOpenerOwns | ldd/scull/access.c:186-188 | in every run, who opens the closed device becomes its owner by the real uid |
| BlockingOpen.TestAnswers | ldd/scull/access.c:165-183 | the test under the lock lets a call through iff the device is closed, or its owner is the caller's uid or euid, or the caller can override |
| BlockingOpen.UndisturbedLook | ldd/scull/access.c:165-181 | an unlocked test nobody disturbs passes under the same condition and else puts the call to sleep |
| BlockingOpen.CallsEnd | ldd/scull/access.c:174-210 | an open ends only by opening, by giving up if nonblocking, or by a signal while it waits |
| BlockingOpen.GivesUpOnlyIfRefused | ldd/scull/access.c:178-182 | in every run, an open that answers EAGAIN is nonblocking and its last test found the device open for somebody else |
| BlockingOpen.NoLostWakeup | ldd/scull/access.c:178-209 | if the device is available to a sleeping opener, a release still owes its wake-up |
| BlockingOpen.StuckOnlyWhileOpenElsewhere | ldd/scull/access.c:174-210 | if no call can take a step, all sleep because somebody they do not share with has the device open |
| IpReceive.IpListRcvFinish | linux/net/ipv4/ip_input.c:581-619 | the loop, with its four mutable variables, delivers what the fold used in the lemmas below delivers |
| IpReceive.IpListRcv | linux/net/ipv4/ip_input.c:630-662 | the same for the outer loop, which dispatches its batches through the inner one |
| IpReceive.InnerLoopBatches | linux/net/ipv4/ip_input.c:588-618 | kept packets are cut into maximal runs with one route, none lost, duplicated or reordered; a hint passed on is the head of the undispatched run and has the current route |
| IpReceive.OuterLoopBatches | linux/net/ipv4/ip_input.c:638-661 | checked packets are cut into maximal runs of one device and net, in order |
| IpReceive.PairDelivery | linux/net/ipv4/ip_input.c:600-616 | of two packets of one device, the second is judged with the hint of the first |
| IpReceive.RcvDeliversIff | linux/net/ipv4/ip_input.c:313-561 | single receive delivers at most one packet, and exactly what passes checks, hook and master device, finds a route by early demux or in full, passes the options, and obeys the rule on link-layer broadcasts |
| IpReceive.ListRcvDeliversIff | linux/net/ipv4/ip_input.c:313-662 | list receive adds for each packet exactly what it is delivered as when judged with the hint of the batch in progress, used iff address and TOS match and it has no route |
| IpReceive.DeliveriesObeyLinkRule | linux/net/ipv4/ip_input.c:376-399 | nothing delivered by either way came in a link-layer broadcast with a unicast or local route on a device that forbids it |
| IpReceive.HintIsHeadOfBatch | linux/net/ipv4/ip_input.c:573-606 | the hint is the head of the batch in progress, absent iff there is none, the net has custom rules or the route is a broadcast |
| IpReceive.ListReceiveIsSingleReceiveIff | linux/net/ipv4/ip_input.c:548-662 | list receive delivers the same sequence as single receive for every list iff no hint changes how a later packet fares |
| IpReceive.ListReceiveUpToSocket | linux/net/ipv4/ip_input.c:305-357 | if full lookup, early demux and the hints that packets of a device can leave behind find the same routes for its packets, both deliver the same packets and routes in the same order for every list, up to the attached socket |
| IpReceive.SameRoutesWithoutSockets | linux/net/ipv4/ip_input.c:305-357 | under the same condition, if early demux attaches no sockets, hints make no difference at all |
| IpReceive.ByAddressFindsSameRoutes | linux/net/ipv4/ip_input.c:305-357 | an environment that routes by destination address, whose hints hand on their own route and whose early demux attaches sockets, meets that condition |
| IpReceive.SocketsCanDiffer | linux/net/ipv4/ip_input.c:330-345 | in that environment, two equal packets that list receive delivers differently from single receive |
| KeywordScan.Scan | linux/net/ipv4/ip_input.c:459-476 | never indexes past the keyword; drops iff the walker reaches its end |
| KeywordScan.DropsOnlyOccurrences | linux/net/ipv4/ip_input.c:465-475 | what is dropped contains the keyword contiguously |
| KeywordScan.MissedOccurrence | linux/net/ipv4/ip_input.c:467-470 | in a packet that passes, each occurrence is preceded by a proper start of the keyword the walker was in |
| KeywordScan.CleanOccurrenceIsDropped | linux/net/ipv4/ip_input.c:465-475 | an occurrence not preceded by such a start is dropped |
| KeywordScan.SomeOccurrencesPass | linux/net/ipv4/ip_input.c:469-470 | HHTTP contains the keyword and passes |
| KeywordScan.PassesIff | linux/net/ipv4/ip_input.c:465-475 | a packet passes iff it is a sequence of failed attempts followed by an unfinished one |
| IntrusiveList.LinkBetween | m_modules/ds/list.h:35-43 | links the node between two neighbours and touches no other link |
| IntrusiveList.ListAdd | m_modules/ds/list.h:45-49 | keeps next and prev inverse around one cycle and adds the node as the youngest member |
| IntrusiveList.ListDel | m_modules/ds/list.h:51-63 | keeps the cycle, removes exactly that member, keeps the order of the others |
| IntrusiveList.AddThenDel | m_modules/ds/list.h:45-63 | deleting right after adding restores every link |
| IntrusiveList.ReversedWithout | m_modules/ds/list.h:58-63 | taking one member out leaves the order of the others alone |
| IntrusiveList.ForEach | m_modules/ds/list.h:30-33 | ends and visits every member once, in insertion order |
| IntrusiveList.Replay | m_modules/ds/list.h:30-63 | any sequence of valid adds and deletes on an empty list leaves a well-formed ring, and a traversal visits exactly the surviving members, in the order of their adding |
| BlockRequest.ClampIsSafeIff | m_modules/blk_dev/blkdev.c:31-34 | in unsigned 64-bit arithmetic, the clamped copy stays inside the device iff the position has not passed its end |
| BlockRequest.BlockDev.WriteRequest | m_modules/blk_dev/blkdev.c:15-46 | stores the prefix of the concatenated segments that fits and reports its length; the segmentation does not matter |
| BlockRequest.BlockDev.ReadRequest | m_modules/blk_dev/blkdev.c:15-46 | fills the concatenated segments from the device as far as both reach, and changes nothing else |
| BlockRequest.BlockDev.WriteThenRead | m_modules/blk_dev/blkdev.c:15-46 | what one request wrote, another one reads back under any segmentation |

## Left out

- Module init and exit, device registration, `/proc` files, load scripts, debug output: plumbing over kernel interfaces.
- Interrupted lock acquisition is a step of the pipe protocol only; the device classes start with the lock held.
- Asynchronous notification of the pipe and the poll wait queues: thin wrappers over kernel services.
- Changing the pipe's buffer size while a buffer exists.
- The decoding and permission checks of the ioctl commands; only their effect on the module-wide geometry is modelled.
- Trimming by the access-control opens outside the device lock; the trims of the private devices are taken as atomic.
- ScullpDevice.ScullpDev.Follow: node allocation is taken to succeed, because the source does not check it.
- ScullpDevice.ScullpDev.Write: covers the writes whose copy stays inside its block; `CopyStaysInPages` says exactly which do, and what another copy overwrites is unknown.
- ScullpDevice.ScullpDev.Read: covers the reads whose copy stays inside its block, for the same reason.
- Scullp.WriteChangesExactly: covers the writes whose copy stays inside its block.
- Scullp.WriteReports: covers the writes whose copy stays inside its block.
- Scullp.ReadReturnsBytes: covers the reads whose copy stays inside its block.
- Scullp.WrittenBytesStay: covers the runs whose copies stay inside their blocks.
- ScullpDevice.ScullpDev.Trim: the frees of slot arrays and list items are not modelled.
- PrivateDevices.CloneList.Cleanup: the list items' own allocations are not blocks of the modelled memory; the blocks of their devices are.
- The slot arrays and list items of scullp as allocations of their own; the list is a sequence.
- scullp's copy to and from user space by `read_iter` and `write_iter`.
- `ip_call_ra_chain`, local delivery, checksums, defragmentation, options and statistics of `ip_input.c`.
- The head of the intrusive list and its items are one node type; `container_of` is not modelled.
- Sector numbers of block requests; positions are in bytes, and the segments of a write are values.
- The near-duplicate block drivers and the demo modules of `m_modules`, and the system call example.
