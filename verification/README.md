# Verified model of libevent's core and of the coturn client codecs

A Dafny model of the parts of this repository that carry state through many small steps, and proofs
of what they keep. `dafny verify dfyconfig.toml` checks all of it.

| files | what they model |
|---|---|
| `Chains`, `Evbuffer`, `EvbufferRuns` | evbuffer: a list of chains that behaves as one flat byte sequence |
| `Search` | pointers, search and line reading on an evbuffer |
| `Tagging`, `TaggedStreams` | the tagged-data format on an evbuffer |
| `BuffereventPair` | the two-party byte pipe |
| `EpollTable`, `Changelist` | per-fd counts, the coalescing changelist and the epoll operation table |
| `Timevals`, `EventState`, `EventBase`, `EventRuns` | the event base: queues, timers, common timeouts, counters |
| `MinHeap`, `TimerHeap` | the timer heap in its array, a set with an earliest element, and the base's heap kept in it |
| `Buckets`, `RatelimState`, `Ratelim`, `RatelimRuns` | token buckets, suspension and rate-limit groups |
| `DnsNames`, `DnsCompression`, `DnsMessages` | DNS names: parsing, compression, messages |
| `DnsState`, `DnsCounts`, `DnsRequests`, `DnsRuns` | the DNS requester over UDP |
| `CrcTable`, `Crc32`, `StunAttributes`, `StunMessages`, `StunFraming`, `StunAddresses` | STUN/TURN messages |
| `Basics`, `Queues` | bytes, options and lists that the others share |

How to read it. Each component has a state (a class whose fields are sequences, maps and sets that the
methods reassign), an invariant `Valid`, methods that follow the C functions branch by branch, and a
`Run` that performs any sequence of operations and states what holds afterwards. The reference against
which a component is proved is a definition of its own: flat bytes, a kernel to which every change is
applied at once, a set with a minimum, a polynomial division, a list of attributes. Where the code does
not do what its comments or documentation promise, the model does what the code does, and a lemma gives
the exact condition.

What the code does otherwise than described:

- `evbuffer_search_range` with an empty pattern does not look at the end (`Search.EmptyPatternAnswer`).
- `evbuffer_prepend` whose second allocation is refused has already put part of the data in front, exactly
  when the first chain has room for some of it and not for all (`Evbuffers.PartialPrependIff`,
  `Evbuffers.PrependLeavesPart`).
- The format description at the top of event_tagging.c (lines 89-93) says that the nibbles of an integer are
  in big-endian order; the code writes the least significant first (`Tagging.EncodeInt`). A payload of 2^31
  bytes or more cannot be read back (`TaggedStreams.LongPayloadRefused`).
- `be_pair_wants_to_talk` ignores the suspension of writing, so what is written during one goes out at once
  (`BuffereventPair.Write`). `bufferevent_enable` does not (bufferevent.c:491-497): what was queued while
  writing was disabled stays behind when writing is enabled during a suspension, even if the other side is
  ready. `BuffereventPair.Enable` says exactly when, `BuffereventPair.EnableLeavesBehind` is a run that ends so,
  and every other call leaves nothing behind that was not behind before (`BuffereventPair.Perform`).
- A flush to an input below its high watermark moves no more than the mark has room for
  (`BuffereventPair.FlushEmptiesIff`, `BuffereventPair.FlushLeavesBehind`).
- A token bucket that was refilled by hand above its maximum is not clipped by the next tick but grows
  (`Buckets.RefillIsAddThenClip`, `Buckets.OverfullBucketGrows`).
- With a minimum share of zero, a group can have an empty bucket and not be suspended
  (`RatelimRuns.RefillKeepsGuardIff`, `RatelimRuns.ZeroShareLosesTheGuard`).
- `dnsname_to_labels` does not check its closing zero against buf_len, with a table of labels or without one
  (`DnsCompression.OverrunIff`, `DnsCompression.OverrunWitness`). It masks positions from 0x4000 on
  (`DnsCompression.PointerIsFaithfulIff`), and a name compressed against one of those may read as another name
  (`DnsMessages.ReadsBackIff`, `DnsMessages.HighNameMisread`).
- `search_try_next` prepares the next name before it finishes the old one. It can take the number of inflight
  requests above the limit (`DnsRuns.SearchOverruns`), and it can leave the next name waiting although there is
  room, until some other request is finished (`DnsRuns.SearchStrands`); `DnsRequests.EvdnsBase.SearchNext` says
  exactly when, and `DnsRuns.Run` that neither happens in runs without searches, resizes and probes.
- `stun_attr_add_fingerprint_str` does not look at the result of the append
  (`StunMessages.AddFingerprint`). `stun_get_message_len_str` adds in sixteen bits
  (`StunFraming.MeasuredIff`).
- `stun_addr_encode` writes an address of no family as IPv4 (`StunAddresses.CodeRoundTripIff`).

Conventions. Integers are unbounded; 32-bit ticks, 64-bit limits, 16-bit lengths and 32-bit casts are
written out where they matter. Clocks, random numbers, the outcomes of system calls and of try-locks are
parameters and take every value. Allocation succeeds unless the size itself is refused;
the second chain of `evbuffer_prepend` may be refused at any size. The integer type
`size_t` is 64 bits wide.

## Model

| member | source | states |
|---|---|---|
| EvbufferRuns.Run | app/src/main/cpp/event/buffer.c:299-2070 | Every run of calls on two buffers leaves the flat contents and returns the bytes that the same run on two plain byte sequences does, and both buffers end valid: total_len the sum of the data, data inside its chain, last the tail, last_with_datap at the last chain with data |
| Evbuffers.TotalIsLength | app/src/main/cpp/event/buffer.c:636-644 | The cached total is the length of the flat contents |
| Chains.NewMembuf | app/src/main/cpp/event/buffer.c:181-202 | A new chain has room for what was asked, is empty, and is refused exactly above the largest payload |
| Evbuffers.Evbuffer.FreeTrailingEmpty | app/src/main/cpp/event/buffer.c:299-312 | Trailing empty chains go, the contents stay, and the slot returned is where the next chain belongs |
| Evbuffers.Evbuffer.ChainInsert | app/src/main/cpp/event/buffer.c:317-336 | The data of the chain come after the contents; last and last_with_datap stay right |
| Evbuffers.Evbuffer.ChainInsertNew | app/src/main/cpp/event/buffer.c:338-346 | A fresh empty chain at the end leaves the contents alone |
| Evbuffers.Evbuffer.Add | app/src/main/cpp/event/buffer.c:1755-1849 | Contents become contents ++ data, or nothing changes and -1: frozen, or too long |
| Evbuffers.Evbuffer.AddReference | app/src/main/cpp/event/buffer.c:2940-2978 | Data held in a read-only chain come after the contents |
| Evbuffers.Evbuffer.Prepend | app/src/main/cpp/event/buffer.c:1851-1934 | Contents become data ++ contents; when frozen, too long, or without a second chain -1, and exactly as much of the end of the data is in front as the first chain had room for |
| Evbuffers.PartialPrependIff | app/src/main/cpp/event/buffer.c:1851-1934 | A prepend that fails has put part of the data in front exactly when it was not frozen, fits the total, and the first chain had room for some but not all and the second chain was refused |
| Evbuffers.PrependLeavesPart | app/src/main/cpp/event/buffer.c:1851-1934 | A run of add, drain and prepend that ends so: -1, and one of three bytes is in front |
| Evbuffers.Evbuffer.Drain | app/src/main/cpp/event/buffer.c:1126-1192 | The first min(len, total) bytes go; a frozen front refuses |
| Evbuffers.Evbuffer.CopyOut | app/src/main/cpp/event/buffer.c:1215-1280 | The first min(n, total) bytes, and the buffer is not changed |
| Evbuffers.Evbuffer.Remove | app/src/main/cpp/event/buffer.c:1195-1207 | Copying out and draining are one: the bytes returned are the bytes gone |
| Evbuffers.Evbuffer.AddBuffer | app/src/main/cpp/event/buffer.c:991-1035 | All of one buffer moves behind the other; nothing is lost or made |
| Evbuffers.Evbuffer.PrependBuffer | app/src/main/cpp/event/buffer.c:1080-1124 | All of one buffer moves in front of the other |
| Evbuffers.Evbuffer.RemoveBuffer | app/src/main/cpp/event/buffer.c:1285-1373 | The first n bytes move behind the other buffer, whole chains and a copied rest alike |
| Evbuffers.Evbuffer.AdvanceLastWithData | app/src/main/cpp/event/buffer.c:729-747 | The cached slot moves to the last chain with data |
| Evbuffers.Evbuffer.Pullup | app/src/main/cpp/event/buffer.c:1375-1487 | The first n bytes become contiguous and are returned; the flat contents do not change |
| Evbuffers.Evbuffer.Expand | app/src/main/cpp/event/buffer.c:1962-2070 | Contents unchanged, and a last chain with the room asked for; none only if data and room together exceed the largest payload, and then no chain has changed |
| Evbuffers.Evbuffer.SetFreeze | app/src/main/cpp/event/buffer.c:3418-3440 | Freezing changes the flags only |
| Search.PtrSet | app/src/main/cpp/event/buffer.c:2642-2692 | Succeeds exactly for positions up to the total, and then points at that flat position, in a chain with that byte |
| Search.PtrEquals | app/src/main/cpp/event/buffer.c:2698-2732 | Equal exactly when the bytes occur in the flat contents at that position, however they are cut into chains |
| Search.SearchRange | app/src/main/cpp/event/buffer.c:2740-2802 | The least flat position at or after the start whose match lies inside the end, or not-found exactly when there is none |
| Search.EmptyPatternAnswer | app/src/main/cpp/event/buffer.c:2740-2802 | For the empty pattern the answer given is right exactly when the start is not past the end, because the end is not looked at |
| Search.ScanFor | app/src/main/cpp/event/buffer.c:1499-1568 | The first flat position holding one of the bytes |
| Search.StrSpn | app/src/main/cpp/event/buffer.c:1570-1607 | How many of the bytes in a row, across chains |
| Search.SearchEol | app/src/main/cpp/event/buffer.c:1622-1710 | For every EOL style, position and length of the line end by the definition on flat bytes |
| Search.Readln | app/src/main/cpp/event/buffer.c:1712-1749 | Returns and drains the same line as the definition on flat bytes, or changes nothing |
| Tagging.EncodeInt | app/src/main/cpp/event/event_tagging.c:144-148 | A length nibble and the digits, least significant first |
| Tagging.DecodeIntInternal | app/src/main/cpp/event/event_tagging.c:365-370 | What the flat bytes say at the offset, or -1 when they are too few |
| Tagging.IntRoundTrip | app/src/main/cpp/event/event_tagging.c:121-166 | The integer code is self-delimiting: whatever follows, it decodes to the number and its own length |
| Tagging.EncodeTag | app/src/main/cpp/event/event_tagging.c:177-198 | Seven bits a byte, least significant first |
| Tagging.DecodeTagInternal | app/src/main/cpp/event/event_tagging.c:200-246 | What the flat bytes say, with the failures for a code too long or cut short |
| Tagging.TagRoundTrip | app/src/main/cpp/event/event_tagging.c:177-246 | The tag code is self-delimiting and inverts |
| TaggedStreams.Marshal | app/src/main/cpp/event/event_tagging.c:260-267 | Appends exactly one item to a stream of items |
| TaggedStreams.UnmarshalHeader | app/src/main/cpp/event/event_tagging.c:441-455 | Tag and length as the flat bytes say; the header is drained and no more |
| TaggedStreams.Unmarshal | app/src/main/cpp/event/event_tagging.c:470-484 | Moves the payload to the other buffer, or -1 |
| TaggedStreams.RoundTrip | app/src/main/cpp/event/event_tagging.c:260-484 | Any list of 32-bit tags and payloads below 2^31 comes back the same, and the buffer is empty |
| TaggedStreams.LongPayloadRefused | app/src/main/cpp/event/event_tagging.c:441-484 | A payload of 2^31 bytes or more cannot be read back: its length turns negative |
| BuffereventPair.NewPair | app/src/main/cpp/event/bufferevent_pair.c:92-150 | Two ends wired to each other, writing enabled, nothing written, nothing read |
| BuffereventPair.MoveBytes | app/src/main/cpp/event/bufferevent_pair.c:152-192 | Moves as many bytes as the high watermark leaves room for, in order |
| BuffereventPair.Transfer | app/src/main/cpp/event/bufferevent_pair.c:152-192 | Moves exactly the bytes the watermark leaves room for, in order, keeps read ++ input ++ output equal to all that was written, and leaves nothing that could move; without flush the input does not pass a high watermark |
| BuffereventPair.Talk | app/src/main/cpp/event/bufferevent_pair.c:194-222 | Transfers when both ends want to, and keeps the pipe |
| BuffereventPair.Write | app/src/main/cpp/event/bufferevent_pair.c:204-222 | What is written joins the end of the pipe, and goes out at once if the other side is ready, even while writing is suspended |
| BuffereventPair.Read | app/src/main/cpp/event/bufferevent.c:469-478 | What is read comes off the front of the pipe |
| BuffereventPair.InputChanged | app/src/main/cpp/event/bufferevent.c:135-149 | Reading is suspended exactly while the input is at or over its high watermark |
| BuffereventPair.Enable | app/src/main/cpp/event/bufferevent_pair.c:224-250 | Enabling keeps the pipe; something is left that could move exactly when writing is enabled during a write suspension with data queued and the other side ready |
| BuffereventPair.EnableLeavesBehind | app/src/main/cpp/event/bufferevent.c:486-508 | A run that ends with writing enabled, the other side ready, and a byte left behind |
| BuffereventPair.Disable | app/src/main/cpp/event/bufferevent_pair.c:252-262 | Disabling keeps the pipe |
| BuffereventPair.SetWatermark | app/src/main/cpp/event/bufferevent.c:598-643 | A new watermark suspends or resumes reading and keeps the pipe |
| BuffereventPair.Flush | app/src/main/cpp/event/bufferevent_pair.c:304-337 | In each direction asked for exactly what the mark has room for moves when the input is below it, and everything otherwise, in order; nothing in the other |
| BuffereventPair.FlushEmptiesIff | app/src/main/cpp/event/bufferevent_pair.c:152-192 | A flush empties the output exactly when there is no mark, the input has reached it, or the output fits below it |
| BuffereventPair.FlushLeavesBehind | app/src/main/cpp/event/bufferevent_pair.c:152-337 | A run that flushes ten bytes into a mark of five and leaves five behind |
| BuffereventPair.Perform | app/src/main/cpp/event/bufferevent_pair.c:152-337 | Each call keeps the pipe, and keeps "nothing is left that could move" unless it enables an end whose writing is suspended |
| BuffereventPair.Run | app/src/main/cpp/event/bufferevent_pair.c:152-337 | For any interleaving of writes, reads, enables, disables, watermarks, suspensions and flushes: what one side has read ++ its input ++ the output of the other equals all the other wrote; and nothing is left in an end whose writing is enabled and not suspended while the other is ready |
| EpollTable.TableRight | app/src/main/cpp/include/event/extra/epolltable-internal.h:139-1164 | Every entry of the 512-entry table that a change can select issues a call that leaves the interest at old minus deletes plus adds, or none when nothing changes |
| Changelist.ApplyOneChangeRight | app/src/main/cpp/event/epoll.c:302-393 | Looking the change up and calling epoll_ctl, with its retries, leaves the interest of the fd at old minus deletes plus adds and of no other fd changed |
| Changelist.NoteAddAfter | app/src/main/cpp/event/evmap.c:865-893 | Noting an add makes the coalesced change end with that interest set |
| Changelist.NoteDelAfter | app/src/main/cpp/event/evmap.c:895-946 | Noting a delete makes the coalesced change end with that interest clear |
| Changelist.IoBase.GetOrConstruct | app/src/main/cpp/event/evmap.c:834-863 | The entry of the fd, new or old; every other entry keeps its index |
| Changelist.IoBase.IoAdd | app/src/main/cpp/event/evmap.c:272-349 | The event joins its fd; a count that goes from zero to one is noted; counts that would not fit refuse |
| Changelist.IoBase.IoDel | app/src/main/cpp/event/evmap.c:353-417 | The event leaves its fd; a count that goes from one to zero is noted |
| Changelist.IoBase.ApplyChanges | app/src/main/cpp/event/epoll.c:395-412 | All pending changes are applied to the kernel |
| Changelist.IoBase.RemoveAll | app/src/main/cpp/event/evmap.c:778-797 | The changelist is emptied and every index cleared |
| Changelist.IoBase.Dispatch | app/src/main/cpp/event/epoll.c:456-567 | After it the kernel mirrors the counts and no change is pending |
| Changelist.PendingBijection | app/src/main/cpp/event/evmap.c:751-770 | idxplus1 is a bijection between the fds with a pending change and the changes |
| Changelist.SameKernels | app/src/main/cpp/event/evmap.c:272-417 | Two kernels that mirror the same counts are equal |
| Changelist.Run | app/src/main/cpp/event/evmap.c:272-946 | Any run of adds, deletes and dispatches, ended by a dispatch: the kernel is what applying each change at once would have made it, and holds for each fd exactly the conditions with a count above zero |
| Timevals.WithIndex | app/src/main/cpp/event/event.c:1508-1580 | The spare bits of tv_usec name the queue and give it back, and the microseconds are unchanged |
| Timevals.TimerLeIsKeyLe | app/src/main/cpp/event/event.c:1429-3399 | Within one container comparing the raw fields is comparing the instants |
| EventBases.DeadlineFor | app/src/main/cpp/event/event.c:2637-2807 | ev_timeout is now plus the delay and names the same queue as the delay does |
| EventState.SortedInsert | app/src/main/cpp/event/event.c:3371-3399 | Putting an event where the backward search says keeps the queue sorted by deadline |
| EventBases.EventBase.RemoveActive | app/src/main/cpp/event/event.c:3276-3291 | Flag, queue and both counters change together |
| EventBases.EventBase.InsertActive | app/src/main/cpp/event/event.c:3417-3436 | To the tail of the queue of its priority; flag, queue and both counters change together |
| EventBases.EventBase.RemoveLater | app/src/main/cpp/event/event.c:3292-3306 | Flag, queue and both counters change together |
| EventBases.EventBase.InsertLater | app/src/main/cpp/event/event.c:3438-3453 | To the tail of the later queue; flag, queue and both counters change together |
| EventBases.EventBase.SetInserted | app/src/main/cpp/event/event.c:3401-3415 | The inserted flag and event_count change together, here and in event_queue_remove_inserted |
| EventBases.EventBase.RemoveTimeout | app/src/main/cpp/event/event.c:3307-3327 | The event leaves the container its deadline names; queues stay sorted and watched |
| EventBases.EventBase.InsertTimeout | app/src/main/cpp/event/event.c:3455-3477 | The event enters the container its deadline names; only a queue it heads may need its proxy moved |
| EventBases.EventBase.InorderPosition | app/src/main/cpp/event/event.c:3371-3399 | The place after the last event due no later |
| EventBases.EventBase.Del | app/src/main/cpp/event/event.c:2850-2939 | The event is in no container any more, nothing else changes, and the books are straight |
| EventBases.EventBase.Activate | app/src/main/cpp/event/event.c:2959-3075 | The event is in the active queue of its priority, out of the later queue, and EV_TIMEOUT is kept among its reasons |
| EventBases.EventBase.ActivateLater | app/src/main/cpp/event/event.c:3018-3088 | An event that is not active yet goes to the later queue |
| EventBases.EventBase.SetTimer | app/src/main/cpp/event/event.c:2707-2777 | Out of its old place, out of the active queue if a timeout put it there, into the container of the new deadline |
| EventBases.EventBase.Schedule | app/src/main/cpp/event/event.c:1471-1478 | The proxy is in the heap for the instant of the head of its queue |
| EventBases.EventBase.Add | app/src/main/cpp/event/event.c:2637-2807 | The flags and deadline it promises, or -1 and nothing changed; every queue is watched again |
| EventBases.EventBase.TimeoutProcess | app/src/main/cpp/event/event.c:3221-3245 | Exactly the events in the heap that are due leave it and become active |
| EventBases.EventBase.CommonTimeoutCallback | app/src/main/cpp/event/event.c:1483-1504 | Exactly the due events of the queue leave it and become active, and the proxy is scheduled for the new head |
| EventBases.EventBase.MakeLaterActive | app/src/main/cpp/event/event.c:3479-3492 | Every later event becomes active; the counters do not change |
| EventBases.EventBase.TimeoutNext | app/src/main/cpp/event/event.c:3183-3218 | The wait is exactly the least deadline of the heap less now, zero exactly if some event is due, none exactly if there is none |
| EventBases.EventBase.LoopWait | app/src/main/cpp/event/event.c:1982-2003 | The wait is zero if a callback is active; otherwise it is exactly the least deadline of all pending timeouts, in the heap or in any common-timeout queue, less now, zero exactly if one is due and none exactly if there is none |
| EventBases.EventBase.ProcessFirst | app/src/main/cpp/event/event.c:1583-1720 | The first callback leaves its queue; one that is not persistent is deleted, one with a persistent timeout is added again for its next instant; for a proxy exactly the due events of its queue become active |
| EventBases.RunAt | app/src/main/cpp/event/event.c:1583-1646 | The next instant of a persistent timeout is an interval after its deadline, or after now if it was not a timeout that woke it or that instant has passed; it names the queue of its interval |
| EventBases.EventBase.Reschedule | app/src/main/cpp/event/event.c:1583-1646 | The event has the deadline of its next instant in the container of its interval, and no other event changes |
| EventBases.EventBase.InitCommonTimeout | app/src/main/cpp/event/event.c:1508-1580 | The timeval returned names a queue of that duration, found or made; None exactly when all 256 names are taken and none has that duration |
| EventBases.HeapGuards | app/src/main/cpp/event/event.c:3183-3218 | With nothing active, each timed event has an event in the heap due no later |
| EventRuns.ValidMeansInPlace | app/src/main/cpp/event/event.c:4004-4062 | As event_base_assert_ok_nolock_ asserts: each event is in exactly the containers its flags name, ACTIVE excludes ACTIVE_LATER, a timed event is where is_common_timeout says, and both counters are right |
| EventRuns.ValidMeansGuarded | app/src/main/cpp/event/event.c:3371-3399 | Each common-timeout queue is sorted by deadline, and its proxy is active or in the heap no later than the head is due |
| EventRuns.Run | app/src/main/cpp/event/event.c:2637-3492 | Any run of assigning, adding, deleting, activating, promoting, timing out and processing keeps all of that, with every queue sorted and watched, and the next wait is exactly the time to the earliest pending timeout, zero only if something is active or due |
| MinHeaps.TopEarliest | app/src/main/cpp/include/event/extra/minheap-internal.h:69-69 | In heap order the top is the earliest |
| MinHeaps.MinHeap.Top | app/src/main/cpp/include/event/extra/minheap-internal.h:69-69 | The earliest event of the set, or none when it is empty |
| MinHeaps.MinHeap.ShiftUp | app/src/main/cpp/include/event/extra/minheap-internal.h:161-171 | Moving the hole up restores heap order, keeps the events, and every event knows its index |
| MinHeaps.MinHeap.ShiftUpUnconditional | app/src/main/cpp/include/event/extra/minheap-internal.h:149-159 | The same, the first step without a test |
| MinHeaps.MinHeap.ShiftDown | app/src/main/cpp/include/event/extra/minheap-internal.h:173-186 | Moving the hole down to the lesser child restores heap order, keeps the events and the indices |
| MinHeaps.MinHeap.Push | app/src/main/cpp/include/event/extra/minheap-internal.h:71-77 | The set gains the event; heap order and indices hold |
| MinHeaps.MinHeap.Pop | app/src/main/cpp/include/event/extra/minheap-internal.h:79-89 | The earliest event leaves the set |
| MinHeaps.MinHeap.Erase | app/src/main/cpp/include/event/extra/minheap-internal.h:96-115 | Exactly that event leaves the set, from wherever it is; -1 if it is not there |
| TimerHeaps.RawComparison | app/src/main/cpp/include/event/extra/minheap-internal.h:61-62 | The comparison of the array heap, on raw fields, orders what is in the heap of the base as the instants do |
| TimerHeaps.Top | app/src/main/cpp/event/event.c:3183-3218 | The root of the array heap is in the heap of the base, and is due no later than any other there |
| TimerHeaps.Insert | app/src/main/cpp/event/event.c:3455-3477 | Entering a timeout keeps the array heap and the heap of the base the same set |
| TimerHeaps.Remove | app/src/main/cpp/event/event.c:3307-3327 | Taking a timeout out keeps the array heap and the heap of the base the same set |
| Buckets.NewCfg | app/src/main/cpp/event/bufferevent_ratelim.c:142-173 | Refused exactly for rates below one, above the burst, or out of range |
| Buckets.RefillIsAddThenClip | app/src/main/cpp/event/bufferevent_ratelim.c:73-111 | The division form equals min(maximum, limit + ticks*rate) exactly when the limit was not above the maximum, or the ticks wrap all the way round |
| Buckets.OverfullBucketGrows | app/src/main/cpp/event/bufferevent_ratelim.c:73-111 | A bucket lifted above its maximum by hand is not clipped: an input on which the comment in the code fails |
| Buckets.UpdateFacts | app/src/main/cpp/event/bufferevent_ratelim.c:73-111 | An update stays in range, never takes a positive limit to zero or below, and is add-then-clip within the maximum |
| Buckets.WithinMaximumIsExact | app/src/main/cpp/event/bufferevent_ratelim.c:73-111 | A bucket within its maximum stays so and never wraps |
| Buckets.BytesBounded | app/src/main/cpp/event/bufferevent_ratelim.c:197-258 | Whatever is asked and whenever, the bytes let through never exceed maximum + ticks*rate, across wraps of the tick counter and clocks that step back |
| Buckets.RefillReaches | app/src/main/cpp/event/bufferevent_ratelim.c:73-111 | Enough ticks bring a limit to any goal up to the maximum |
| RatelimState.SuspendFacts | app/src/main/cpp/event/bufferevent.c:66-97 | One reason is added, the others stay, and the backend runs exactly when enabled and not suspended |
| RatelimState.UnsuspendFacts | app/src/main/cpp/event/bufferevent.c:77-108 | One reason is removed, the others stay, and the backend runs exactly when enabled and not suspended |
| Ratelim.RandomOrder | app/src/main/cpp/event/bufferevent_ratelim.c:474-485 | The walk from a random start: the rest of the list, then the list up to it |
| Ratelim.EachOnce | app/src/main/cpp/event/bufferevent_ratelim.c:474-485 | The walk meets every member exactly once |
| Ratelim.Configure | app/src/main/cpp/event/bufferevent_ratelim.c:559-635 | Limits as for a new or a changed configuration, bit and timer to match, and the refill event is never reassigned while pending |
| Ratelim.RefillOwn | app/src/main/cpp/event/bufferevent_ratelim.c:393-439 | Each direction stays suspended exactly if its limit is still not positive, and then the timer is pending again |
| Ratelim.Adjust | app/src/main/cpp/event/bufferevent_ratelim.c:970-1024 | The limit changes by the amount, and bit and timer follow it across zero |
| Ratelim.SpendOwn | app/src/main/cpp/event/bufferevent_ratelim.c:272-346 | The limit drops by the bytes, and the bit is set exactly when it is not positive |
| Ratelim.GroupShare | app/src/main/cpp/event/bufferevent_ratelim.c:197-258 | A suspended group gives nothing and sets the bit; another gives each member its share, at least the minimum |
| Ratelim.Refreshed | app/src/main/cpp/event/bufferevent_ratelim.c:113-124 | Updating the bucket loses neither bit nor timer |
| Ratelim.RateLimits.SetRateLimit | app/src/main/cpp/event/bufferevent_ratelim.c:559-635 | The same, on the bufferevent in its group |
| Ratelim.RateLimits.Refill | app/src/main/cpp/event/bufferevent_ratelim.c:393-439 | The same, run by the timer |
| Ratelim.RateLimits.DecrementLimit | app/src/main/cpp/event/bufferevent_ratelim.c:970-1024 | The same, on the bufferevent in its group |
| Ratelim.RateLimits.GetMax | app/src/main/cpp/event/bufferevent_ratelim.c:197-258 | The lesser of the own limit and the share of the group, never negative, nothing while the group is suspended |
| Ratelim.RateLimits.DecrementBuckets | app/src/main/cpp/event/bufferevent_ratelim.c:272-346 | The own bucket and that of the group drop by the bytes, no other changes, and the group is suspended exactly when its limit is not positive |
| Ratelim.RateLimits.SuspendGroup | app/src/main/cpp/event/bufferevent_ratelim.c:349-389 | Every member that can be locked gets the bit |
| Ratelim.RateLimits.UnsuspendGroup | app/src/main/cpp/event/bufferevent_ratelim.c:487-523 | Every member that can be locked loses the bit, and the group notes exactly whether one was missed |
| Ratelim.RateLimits.GroupRefill | app/src/main/cpp/event/bufferevent_ratelim.c:528-557 | A suspension ends exactly when the bucket has reached the minimum share, and then every member that can be locked is released |
| Ratelim.RateLimits.GroupDecrement | app/src/main/cpp/event/bufferevent_ratelim.c:1026-1064 | The new state of the group, suspended or released as the limit crosses zero |
| Ratelim.RateLimits.JoinBegin | app/src/main/cpp/event/bufferevent_ratelim.c:734-778 | Linked, with the flags seen under the lock of the group |
| Ratelim.RateLimits.JoinEnd | app/src/main/cpp/event/bufferevent_ratelim.c:734-778 | The bits seen are set later, and even so the group still owes this member a release |
| Ratelim.RateLimits.Leave | app/src/main/cpp/event/bufferevent_ratelim.c:786-807 | Unlinked from exactly its group, and the bits of the group are gone |
| Ratelim.RateLimits.SetMinShare | app/src/main/cpp/event/bufferevent_ratelim.c:702-721 | Clipped to both rates, refused above SSIZE_MAX |
| Ratelim.RateLimits.SetGroupCfg | app/src/main/cpp/event/bufferevent_ratelim.c:671-700 | Limits clipped to the new maximum, minimum share adapted |
| RatelimRuns.Run | app/src/main/cpp/event/bufferevent_ratelim.c:272-807 | No lost wakeup in any reachable state, whichever try-locks fail: an empty bucket means the BW bit, that bit means a pending timer, a BW_GROUP bit means a group suspended or owing a release, and membership lists are exact. In runs that lift no limit by hand every bucket is within its maximum and these hold outright, for groups if no minimum share is set to zero |
| RatelimRuns.Perform | app/src/main/cpp/event/bufferevent_ratelim.c:272-807 | Each step but one that adds to a limit by hand keeps every bucket within its maximum and free of wrap-around, and each step but a zero minimum share keeps every group a share |
| RatelimRuns.TimerWakes | app/src/main/cpp/event/bufferevent_ratelim.c:393-439 | The wakeup does come: after enough ticks the callback lifts the suspension and the direction runs |
| RatelimRuns.GroupTimerWakes | app/src/main/cpp/event/bufferevent_ratelim.c:528-557 | After enough ticks a callback that finds no lock busy releases every member |
| RatelimRuns.RefillKeepsGuardIff | app/src/main/cpp/event/bufferevent_ratelim.c:528-557 | A refill keeps "an empty bucket means suspended" except exactly when the minimum share is zero and the bucket comes back to zero |
| RatelimRuns.ZeroShareLosesTheGuard | app/src/main/cpp/event/bufferevent_ratelim.c:702-721 | A run with minimum share zero that ends with a negative limit and no suspension |
| DnsNames.NameParse | app/src/main/cpp/event/evdns.c:1212-1266 | On every packet it ends; it gives the labels the pointers lead to, dotted, exactly when they fit with the terminator |
| DnsNames.NextIsSkip | app/src/main/cpp/event/evdns.c:1212-1266 | The new index is just past the name or past its first pointer |
| DnsNames.GuardIsExact | app/src/main/cpp/event/evdns.c:1212-1266 | Any name that can be read with any number of jumps is read within the jumps allowed: the guard refuses only loops |
| DnsNames.TargetsDistinct | app/src/main/cpp/event/evdns.c:1212-1266 | No pointer of a readable name leads to a place twice |
| DnsCompression.LabelTable.GetPos | app/src/main/cpp/event/evdns.c:1890-1899 | The position of the first entry with that text |
| DnsCompression.LabelTable.Add | app/src/main/cpp/event/evdns.c:1902-1917 | One entry more, or none when the table is full |
| DnsCompression.CarriedIsNameIff | app/src/main/cpp/event/evdns.c:1930-1994 | What the wire carries of a name is the name exactly when it has no empty label |
| DnsCompression.PutReads | app/src/main/cpp/event/evdns.c:1930-1994 | The invariant of the table: while a name is written, every position it or an earlier name noted reads as its suffix |
| DnsMessages.ToLabels | app/src/main/cpp/event/evdns.c:1930-1994 | The bytes written, the table afterwards and the error codes are those of the definition, and at most one byte goes past buf_len |
| DnsMessages.Compose | app/src/main/cpp/event/evdns.c:2428-2527 | Names and other bytes written in turn with one table make the message of the definition |
| DnsMessages.AllReadBack | app/src/main/cpp/event/evdns.c:1930-1994 | Every name of a message of any length, however suffixes are shared, reads as what the wire carries of it, if no pointer in it leads to 0x4000 or beyond |
| DnsMessages.NamesRoundTrip | app/src/main/cpp/event/evdns.c:1930-1994 | A name that points below 0x4000, wherever it stands, parses back to itself exactly when it is well formed, and then the index is where the writer stopped |
| DnsMessages.PointsLowWhen | app/src/main/cpp/event/evdns.c:1930-1994 | So it is for a name that starts at or below 0x4000, and for one before which every name ends there |
| DnsMessages.PointedReadsIff | app/src/main/cpp/event/evdns.c:1930-1994 | A name written with a pointer reads as itself exactly when the place the masked pointer leads to reads as the suffix found |
| DnsMessages.ReadsBackIff | app/src/main/cpp/event/evdns.c:1930-1994 | In any message, a name reads back exactly when it does not point to 0x4000 or beyond, or the masked place happens to read as the same suffix |
| DnsMessages.HighNameMisread | app/src/main/cpp/event/evdns.c:1930-1994 | A message in which a name points to 0x4000 and parses as the empty name |
| DnsCompression.PointerIsFaithfulIff | app/src/main/cpp/event/evdns.c:1930-1994 | A pointer leads to its position modulo 0x4000, so back to it exactly from positions below 0x4000 |
| DnsCompression.OverrunIff | app/src/main/cpp/event/evdns.c:1930-1994 | With a table or without, something is written past buf_len exactly when the name goes out in full, no suffix of it found in the table, and its last label, not empty, ends there |
| DnsCompression.OverrunWitness | app/src/main/cpp/event/evdns.c:1930-1994 | For every buffer of two bytes or more, a name of one letter that with an empty table writes one byte past it |
| DnsRequests.EvdnsBase.Pick | app/src/main/cpp/event/evdns.c:940-969 | It ends, answers None exactly when there are no servers, and picks one that is up whenever one is |
| DnsRequests.EvdnsBase.Find | app/src/main/cpp/event/evdns.c:637-652 | Looking in one bucket finds an inflight request with that id if there is one anywhere |
| DnsRequests.EvdnsBase.PickId | app/src/main/cpp/event/evdns.c:1613-1625 | The id is none of the inflight requests and not 0xffff; if none is found, no more usable ids were drawn than requests are inflight |
| DnsRequests.EvdnsBase.Swap | app/src/main/cpp/event/evdns.c:710-719 | The request changes servers and both counts with it; the new server is there, as the source asserts |
| DnsRequests.EvdnsBase.NameserverFailed | app/src/main/cpp/event/evdns.c:723-814 | The server is down, and none of its unsent requests stays with it while another is up |
| DnsRequests.EvdnsBase.NameserverUp | app/src/main/cpp/event/evdns.c:816-835 | The server is up, and only its probe may be gone |
| DnsRequests.EvdnsBase.Promote | app/src/main/cpp/event/evdns.c:941-969 | From the waiting list to the bucket of its new id, all counters with it |
| DnsRequests.EvdnsBase.Wait | app/src/main/cpp/event/evdns.c:3636-3654 | To the end of the waiting list |
| DnsRequests.EvdnsBase.Insert | app/src/main/cpp/event/evdns.c:3498-3512 | Into the bucket of its id, all counters with it |
| DnsRequests.EvdnsBase.Remove | app/src/main/cpp/event/evdns.c:3460-3495 | Out of its bucket or the waiting list, all counters with it |
| DnsRequests.EvdnsBase.Finish | app/src/main/cpp/event/evdns.c:847-905 | The request leaves, the others stay, and room is given to waiting requests |
| DnsRequests.EvdnsBase.Pump | app/src/main/cpp/event/evdns.c:941-969 | Requests move from waiting to inflight until the limit, conserving their sum, and with as many usable ids drawn as the limit and a server it stops only when there is no room or nobody waits |
| DnsRequests.EvdnsBase.Transmit | app/src/main/cpp/event/evdns.c:2959-3020 | Sent, choked or failed as the network says, with counts and flags to match; every request stays where it is and no server comes up |
| DnsRequests.EvdnsBase.TransmitAll | app/src/main/cpp/event/evdns.c:3078-3100 | What does not ask to be sent is not sent; if the network takes everything, every request that asked has been sent once more, unless its server is choked |
| DnsRequests.EvdnsBase.TransmitBucket | app/src/main/cpp/event/evdns.c:3078-3100 | The same for one bucket, each of its requests once |
| DnsRequests.EvdnsBase.Prepare | app/src/main/cpp/event/evdns.c:3524-3603 | It goes out at once exactly when there is room and a server |
| DnsRequests.EvdnsBase.Submit | app/src/main/cpp/event/evdns.c:3636-3654 | One request more, inflight or waiting as it has a server or not |
| DnsRequests.EvdnsBase.Resolve | app/src/main/cpp/event/evdns.c:3693-3721 | One new request, inflight exactly when there is room and a server, waiting otherwise; the others stay inflight or waiting, and the limit is kept |
| DnsRequests.EvdnsBase.SearchNext | app/src/main/cpp/event/evdns.c:4076-4117 | The limit is overrun exactly when there was room and the waiting requests could take it all; the next name waits although there is room exactly when there was neither room nor anyone waiting |
| DnsRuns.SearchOverruns | app/src/main/cpp/event/evdns.c:4076-4117 | A run with limit two that ends with three requests inflight, after evdns_base_set_max_requests_inflight has made room without pumping |
| DnsRuns.SearchStrands | app/src/main/cpp/event/evdns.c:4076-4117 | A run with limit one that ends with nothing inflight and the next name, the only request, waiting |
| DnsCounts.IdsRunOut | app/src/main/cpp/event/evdns.c:1613-1625 | If all usable ids drawn are in use, they are no more than the inflight requests |
| DnsRequests.EvdnsBase.TimedOut | app/src/main/cpp/event/evdns.c:2739-2783 | Given up exactly after the last retransmission, with its server down; before that it moves to the server picked, up if any is, and is sent once more when the network takes it |
| DnsRequests.EvdnsBase.Resend | app/src/main/cpp/event/evdns.c:2739-2783 | The request is with the server picked, and is sent once more when the network takes it |
| DnsRequests.EvdnsBase.CountTimeout | app/src/main/cpp/event/evdns.c:2739-2783 | A server with more timeouts in a row than allowed has failed, another has one more |
| DnsRequests.EvdnsBase.Answered | app/src/main/cpp/event/evdns.c:1110-1210 | The request is gone, and with it only the probe of a server that comes up |
| DnsRequests.EvdnsBase.Rejected | app/src/main/cpp/event/evdns.c:913-934 | Gone, or to be sent afresh with one reissue more, and then with a different server if it had been sent |
| DnsRequests.EvdnsBase.SendProbe | app/src/main/cpp/event/evdns.c:3048-3073 | One inflight request more, limit or not, and it is the probe of the server |
| DnsRequests.EvdnsBase.AddNameserver | app/src/main/cpp/event/evdns.c:3220-3318 | A server more, up, in the ring |
| DnsRequests.EvdnsBase.SetMaxInflight | app/src/main/cpp/event/evdns.c:4212-4241 | Every inflight request is in the bucket of its id modulo the new number of buckets; no request, server or counter changes, and nothing is pumped |
| DnsRuns.Run | app/src/main/cpp/event/evdns.c:710-969 | After any run: the inflight counter is the number of inflight requests, of bucket entries and of requests the servers count; each is in bucket trans_id mod n_req_heads; the waiting counter is the length of the waiting list; good servers are those up. Without a resize, a search or a probe the limit is kept; without a resize or a search, once there is a server and as long as ids do not run out, nobody waits while there is room |
| Crc32.NsCrc32 | app/src/main/cpp/client/ns_turn_msg.c:1755-1760 | The table-driven sum of any bytes is the bit-by-bit remainder by the reversed polynomial |
| CrcTable.TableRight | app/src/main/cpp/client/ns_turn_msg.c:1664-1729 | Each of the 256 entries is what eight steps of the division make of its index |
| Crc32.UpdateRight | app/src/main/cpp/client/ns_turn_msg.c:1662-1662 | One table step is eight steps of the division |
| StunMessages.TypeRoundTrip | app/src/main/cpp/client/ns_turn_msg.c:408-421 | Method and class come back from every message type, which never looks like a channel |
| StunMessages.InitCommand | app/src/main/cpp/client/ns_turn_msg.c:629-636 | Header with type, cookie and transaction id, no attributes |
| StunMessages.InitHolds | app/src/main/cpp/client/ns_turn_msg.c:629-636 | It is a command message that holds no attributes |
| StunAttributes.WalkAll | app/src/main/cpp/client/ns_turn_msg.c:1410-1438 | On any bytes the walk ends; the attributes follow one another without a gap, each whole within the declared length, and all together with header and padding fit it |
| StunAttributes.WalkInside | app/src/main/cpp/client/ns_turn_msg.c:1410-1438 | From any attribute on, consecutive places, each attribute whole within the declared length, ending by it |
| StunAttributes.WalkBounded | app/src/main/cpp/client/ns_turn_msg.c:1410-1438 | The walk starts behind the header, and is empty if the declared length is not there |
| StunAttributes.HoldsWalk | app/src/main/cpp/client/ns_turn_msg.c:1388-1438 | The walk over a message finds exactly the attributes it holds, in order |
| StunAttributes.FirstByType | app/src/main/cpp/client/ns_turn_msg.c:1375-1386 | Nothing exactly when no attribute of the walk has the type, else the place of the first that has |
| StunAttributes.FirstOfIsFirst | app/src/main/cpp/client/ns_turn_msg.c:1375-1386 | The same from any attribute on |
| StunAttributes.AppendHolds | app/src/main/cpp/client/ns_turn_msg.c:1440-1467 | An append adds exactly that attribute at the end, keeps type, cookie and transaction id, and a command message stays one |
| StunMessages.AttrAdd | app/src/main/cpp/client/ns_turn_msg.c:1440-1467 | The buffer afterwards, padding included, or -1 and no change when there is no room, even without a declared length |
| StunMessages.Build | app/src/main/cpp/client/ns_turn_msg.c:629-1467 | Any attributes added in turn to a new message: the walk returns exactly those that were taken, and it is a command message of the given type and transaction id |
| StunMessages.AddFingerprint | app/src/main/cpp/client/ns_turn_msg.c:1650-1657 | With room, the attribute over the message is appended; without room, the last four bytes are overwritten |
| StunMessages.FullCheck | app/src/main/cpp/client/ns_turn_msg.c:475-497 | Accepts exactly what the definition of an acceptable message says |
| StunMessages.FingerprintAccepted | app/src/main/cpp/client/ns_turn_msg.c:475-497 | A command message without a fingerprint that got one is accepted, checked or not |
| StunMessages.SignAndCheck | app/src/main/cpp/client/ns_turn_msg.c:1650-1657 | A command message without a fingerprint that leaves room for one is signed, grows by eight bytes, and then passes the full check |
| StunFraming.InitChannel | app/src/main/cpp/client/ns_turn_msg.c:793-807 | Header and padded length, or -1 for lengths out of range |
| StunFraming.IsChannel | app/src/main/cpp/client/ns_turn_msg.c:809-855 | Number and unpadded length exactly when header and actual length agree as the padding rules allow |
| StunFraming.ChannelRoundTrip | app/src/main/cpp/client/ns_turn_msg.c:793-855 | Number and length come back, padded or not |
| StunFraming.GetMessageLen | app/src/main/cpp/client/ns_turn_msg.c:928-980 | The lengths of what comes first in a stream, in sixteen-bit sums |
| StunFraming.MeasuredIff | app/src/main/cpp/client/ns_turn_msg.c:928-980 | A frame in front of anything is measured right exactly when its length fits sixteen bits |
| StunFraming.Split | app/src/main/cpp/client/ns_turn_msg.c:928-980 | Any concatenation of command messages and channel data is cut at every boundary, with the unpadded lengths |
| StunAddresses.AddrEncode | app/src/main/cpp/client/ns_turn_msg_addr.c:35-107 | The bytes of the address attribute, XORed with cookie and transaction id or plain |
| StunAddresses.AddrDecode | app/src/main/cpp/client/ns_turn_msg_addr.c:109-180 | The address the bytes say, or a refusal |
| StunAddresses.CodeRoundTripIff | app/src/main/cpp/client/ns_turn_msg_addr.c:35-180 | Decoding undoes encoding exactly for IPv4 and IPv6; an address of no family comes back as IPv4 |
| StunAddresses.AddressMap.ToPrivate | app/src/main/cpp/client/ns_turn_ioaddr.c:547-558 | The private address of the first matching row, with the port kept |
| StunAddresses.AddressMap.ToPublic | app/src/main/cpp/client/ns_turn_ioaddr.c:560-571 | The public address of the first matching row, with the port kept |
| StunAddresses.MapRoundTripIff | app/src/main/cpp/client/ns_turn_ioaddr.c:547-571 | To the public side and back is the identity exactly when the first row with that public address is one of the address, or the address is in neither column |
| StunAddresses.DuplicateFreeComesBack | app/src/main/cpp/client/ns_turn_ioaddr.c:534-571 | With a duplicate-free public column every address that is mapped or not public comes back |
| StunAddresses.AddAddr | app/src/main/cpp/client/ns_turn_msg.c:1469-1497 | The message holds one more attribute, with the coded public address |
| StunAddresses.AddThenGet | app/src/main/cpp/client/ns_turn_msg.c:1469-1538 | Adding and then reading from the same buffer gives the address back exactly when the table takes it back to itself |
| StunAddresses.GetAddr | app/src/main/cpp/client/ns_turn_msg.c:1499-1538 | The private address the attribute stands for, with the default in place of an unspecified one |
| StunAddresses.AddressRoundTripIff | app/src/main/cpp/client/ns_turn_msg.c:1469-1538 | An added address attribute reads back as the same address and port exactly when the table takes the address back to itself, and the default stands in for an unspecified one |

## Left out

- buffer.c: pinned, multicast, file-segment and sendfile chains, reserve/commit vectors, evbuffer_expand_fast_, callbacks and the counters n_add_for_cb and n_del_for_cb; they are kernel or shared-memory cases, or notifications after the fact.
- buffer.c: chains are values in a sequence, so the identity of a chain that moves from one buffer to another, and its aliasing, are not captured.
- buffer.c: byte counts that the API returns as int are the mathematical counts; totals are taken to fit size_t where a call needs it.
- Evbuffers.Evbuffer.AddReference: requires the data to fit in the largest chain, EVBUFFER_CHAIN_MAX; the original does not ask, but no object in memory is that large.
- EvbufferRuns.Run: for buffers that are not frozen, with totals that fit size_t, data that fit one allocation, and no allocation refused; the methods themselves cover the refusals.
- event.c: signals, finalizers, event_once, event_reinit, debug maps, watchers, notification of other threads.
- EventBases.EventBase.ProcessFirst: what user callbacks do is not part of it; they are further steps of a run.
- EventBases.EventBase.Add: requires a timeout whose microseconds are below a million; the original does not check this, and with more the comparison of raw fields no longer orders instants.
- MinHeap: min_heap_adjust_, which only the reinsertion path that is compiled out uses; growing the array always succeeds.
- evmap.c and epoll.c: edge-triggered events, EV_ET mixing checks, signals, timerfd, the events that epoll_wait reports, and epoll_ctl failures other than those the code retries.
- bufferevent_ratelim.c: ev_token_bucket_get_tick_ (ticks are a parameter), byte totals of groups, freeing groups, and removal without clearing the bits, which only destruction does.
- Ratelim.RateLimits.DecrementLimit: requires the changed limit to fit its type, since overflow there is undefined in C; so do DecrementBuckets and GroupDecrement.
- RatelimRuns.Run: says nothing of a bucket once a refill of a hand-lifted limit has wrapped around 64 bits, which the history flag `overflowed` records; it stays false in runs that lift no limit by hand.
- bufferevent.c: reference counts, deferred callbacks, timeouts, locks as such.
- BuffereventPair.Run: unlinking and destruction of an end, and the callbacks of the user.
- evdns.c: TCP, clear-and-suspend, shutdown, resolv.conf and hosts, getaddrinfo, server ports, parsing of whole replies, probe back-off times.
- DnsRequests.EvdnsBase.PickId: the loop over random numbers ends here with the numbers supplied; the original goes on drawing. They suffice if they hold as many different ids as the limit.
- DnsRequests.EvdnsBase.SearchNext: an id chosen for the next name is not yet inflight while the old request is finished, so ids of inflight requests are not claimed to differ after it.
- DnsMessages.ToLabels: a name is a C string, so it holds no zero byte; where the closing zero goes past buf_len the array must have that byte, since a write outside an array has no meaning here.
- ns_turn_msg.c: message integrity, OAuth, passwords, error codes, and the HTTP test inside stun_get_message_len_str, which is a parameter.
- StunMessages.AttrAdd: requires a buffer of MAX_STUN_MESSAGE_SIZE bytes, and a declared length that is there or a value that is refused; otherwise the original writes in front of the buffer.
- StunAddresses.MapRoundTripIff: the rows of the table are IPv4 or IPv6 addresses.
- Threads: the model is sequential, except that try-locks may fail at any time and that joining a rate-limit group is two steps between which others may run.
