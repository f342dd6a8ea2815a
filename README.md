# ser2net core, modelled in Dafny

Unosquare's ser2net is a .NET service. It bridges one serial port and one TCP
listener. Bytes arriving on the port are queued for the network side. Bytes
arriving from the network client are queued for the port. Throughput is
sampled and reported periodically.

This project models the parts of that service whose behaviour is decided by
sequential logic, and proves what they promise:

- **Memory queues.** `MemoryQueue<T>` and its older revision `BufferQueue<T>`
  are growable ring buffers over one backing array. Each has a read cursor, a
  write cursor and a count. Both are modelled as classes over an `array`,
  with the logical contents as a ghost sequence. The invariant ties that
  sequence to the slots from the read cursor on, wrapping at the end.
  Every operation states its new contents exactly. This covers enqueue
  split across the physical end, growth to `(Count + n + g) & ~g`,
  reallocation in FIFO order, dequeue, peek, clear and dispose.
- **Memory blocks.** `MemoryBlock<T>` is a fixed-length block. Its copy
  operations clamp the count to the room in both windows, and are modelled
  with the clamped count as a function and the copy as a method. The same
  holds for the span-to-block extension copies.
- **The data bridge.** It holds two independent byte queues, one for each
  direction.
- **Statistics collectors.** `StatisticsCollector<T>` keeps a bounded window
  of the newest samples, lifetime totals that survive eviction, a one-shot
  recorder, and window aggregates recomputed after every sample. The older
  collector computes the same aggregates on demand. The window is proved to
  be exactly the newest `Capacity` samples. The aggregates are proved to be
  the sum, minimum and maximum of the window's columns.
- **Report gating.** `ReportStatistics` decides when a throughput report is
  due, and `ToBits` chooses bits, kilobits or megabits.
- **The serial port broker.** It chooses which ports to try, from the
  configured name and the enumerated names. Its tick loop drains the queue,
  waits, connects, reads, writes, and drops the port on a fault.
- **The network server.** Its client registry admits at most
  `MaxClientCount` clients under increasing ids, disconnects by client, and
  disposes and clears every client when the accept loop ends.

Serial ports, sockets, the clock and the memory pool are inputs of the model.
A port's enumeration, `Open`, `BytesToRead`, reads and write faults are
fields of a `PortIo` record, one per tick. The listener's accepts are a
sequence of `AcceptEvent`s. Clock readings, elapsed times and rates are
integer parameters. `MemoryPool.Rent` is a function parameter that never
returns fewer slots than requested.

Files: `wrappers.dfy`, `bits.dfy`, `rings.dfy`, `spans.dfy`,
`memory_block.dfy`, `memory_extensions.dfy`, `memory_queue.dfy`,
`buffer_queue.dfy`, `data_bridge.dfy`, `aggregates.dfy`,
`statistics_collector.dfy`, `legacy_statistics.dfy`,
`statistics_extensions.dfy`, `serial_port_broker.dfy`, `net_server.dfy`.

Two places in the source use members that are not defined; the model reads them as follows:
- The current collector reads `SamplesQueue.Length`, which `MemoryQueue` does
  not define. It is read as `Count`.
- `MemoryQueue` slices its `MemoryBlock` buffer with a range (`Buffer[range]`),
  which the block's `Length` and `Slice(int, int)` turn into a `Span<T>`, and
  then reads `.Span` on that span, which `Span<T>` does not have. The slice is
  read as the span itself, and the queue's buffer is modelled as a plain array.
- `Workers/NetServer.cs` and `NetworkServer.cs` hold the same registry and
  admission logic. One `NetServer` class models both. The table cites
  `Workers/NetServer.cs`; the same members cover `NetworkServer.cs`:
  `Clients` at line 30, `Disconnect` at 32-47, the accept loop at 60-98,
  admission at 69-84 and the `finally` block at 105-115.

## Model

| member | source | states |
|---|---|---|
| Wrappers.RequestedCount | Unosquare.Ser2Net/Memory/MemoryQueue.cs:265-268 | the count an array-returning peek or dequeue asks for: the whole count for a negative request or one at or past the count, the request itself otherwise |
| Rings.ModIsSlot | Unosquare.Ser2Net/Memory/MemoryQueue.cs:174 | the source's cursor arithmetic `(x) % Capacity` is the wrapped slot index while `x < 2 * Capacity` |
| Rings.GrowthTargetFits | Unosquare.Ser2Net/Memory/MemoryQueue.cs:141-145 | the growth target `(Count + n + g) & ~g` always holds the count plus the new elements |
| Rings.GrowthTargetRoundsUp | Unosquare.Ser2Net/Memory/MemoryQueue.cs:143 | for an initial capacity `2^k`, the growth target is a multiple of it and less than one initial capacity above `Count + n` |
| Rings.GrowthTargetUnalignedExample | Unosquare.Ser2Net/Memory/MemoryQueue.cs:143 | example, one instance only: for an initial capacity that is not a power of two (3), the target (4) is not a multiple of it |
| Rings.GrowthTargetEightToSixteen | Unosquare.Ser2Net/Memory/MemoryQueue.cs:143 | example, one instance only: an 8-slot queue holding 7 elements that receives 5 more grows to 16 |
| Rings.ClearedCount | Unosquare.Ser2Net/Memory/MemoryQueue.cs:109-113 | `Clear(n)` discards none for a non-positive `n`, all of them for `n` at least the count, and exactly `n` otherwise |
| Rings.AppendContiguous | Unosquare.Ser2Net/Memory/MemoryQueue.cs:151-159 | writing the new elements in one piece at the write cursor places them after the contents in ring order |
| Rings.AppendSplit | Unosquare.Ser2Net/Memory/MemoryQueue.cs:160-172 | writing them in two pieces, first the tail of the array, then its start, also places them after the contents in ring order |
| Rings.ReadContiguous | Unosquare.Ser2Net/Memory/MemoryQueue.cs:291-296 | reading `t` slots in one piece from the read cursor yields the first `t` elements |
| Rings.ReadSplit | Unosquare.Ser2Net/Memory/MemoryQueue.cs:297-309 | reading the tail of the array and then its start yields the first `t` elements |
| Rings.Advance | Unosquare.Ser2Net/Memory/MemoryQueue.cs:313 | moving the read cursor `t` slots on drops exactly the first `t` elements and keeps the write position |
| Rings.RingAtStart | Unosquare.Ser2Net/Memory/MemoryQueue.cs:359-360 | contents copied to the start of a buffer form a ring from cursor 0 |
| Rings.StateAppendContiguous | Unosquare.Ser2Net/Memory/MemoryQueue.cs:151-175 | the one-piece write keeps the whole cursor invariant, with the write cursor moved on modulo the capacity |
| Rings.StateAppendSplit | Unosquare.Ser2Net/Memory/MemoryQueue.cs:160-175 | the two-piece write keeps the whole cursor invariant |
| Rings.StateAdvance | Unosquare.Ser2Net/Memory/MemoryQueue.cs:311-321 | dropping `n` head elements moves the read cursor on, or resets both cursors to 0 when the queue empties |
| Rings.StateAtStart | Unosquare.Ser2Net/Memory/MemoryQueue.cs:359-360 | after reallocation the cursor invariant holds with read cursor 0 and write cursor `Count` |
| Spans.OverwriteTwice | Unosquare.Ser2Net/Memory/MemoryQueue.cs:162-171 | two adjacent copies equal one copy of their concatenation |
| MemoryQueues.MemoryQueue.constructor | Unosquare.Ser2Net/Memory/MemoryQueue.cs:55-60 | a new queue is empty, with both cursors at 0, a buffer of the initial capacity, and growth step capacity minus one |
| MemoryQueues.New | Unosquare.Ser2Net/Memory/MemoryQueue.cs:57 | a non-positive initial capacity is rejected with `ArgumentOutOfRangeException`; otherwise the new queue is empty |
| MemoryQueues.MemoryQueue.Clear | Unosquare.Ser2Net/Memory/MemoryQueue.cs:92-100 | `Clear()` empties the queue and resets both cursors, keeping the buffer |
| MemoryQueues.MemoryQueue.ClearFirst | Unosquare.Ser2Net/Memory/MemoryQueue.cs:105-124 | `Clear(n)` drops exactly the first `ClearedCount(n, Count)` elements; nothing changes for `n <= 0` |
| MemoryQueues.MemoryQueue.DiscardHead | Unosquare.Ser2Net/Memory/MemoryQueue.cs:115-122 | the cursor step drops the first `n` elements; both cursors return to 0 when the queue is left empty |
| MemoryQueues.MemoryQueue.Enqueue | Unosquare.Ser2Net/Memory/MemoryQueue.cs:130-177 | contents become old contents followed by the elements; an empty input changes nothing; overflow grows the buffer to the growth target; the buffer never shrinks |
| MemoryQueues.MemoryQueue.CopyToTail | Unosquare.Ser2Net/Memory/MemoryQueue.cs:149-172 | the branch choice keeps the ring invariant with the elements appended, whether or not the copy is split |
| MemoryQueues.MemoryQueue.CopyAtTail | Unosquare.Ser2Net/Memory/MemoryQueue.cs:156-158 | the one-piece copy appends the elements in ring order |
| MemoryQueues.MemoryQueue.CopyAroundEnd | Unosquare.Ser2Net/Memory/MemoryQueue.cs:162-171 | the split copy appends the elements in ring order |
| MemoryQueues.MemoryQueue.Reallocate | Unosquare.Ser2Net/Memory/MemoryQueue.cs:328-366 | contents are kept in FIFO order; a target no larger than the capacity changes nothing; a larger one gives a fresh buffer of that size, read cursor 0, write cursor `Count` |
| MemoryQueues.MemoryQueue.CopyContents | Unosquare.Ser2Net/Memory/MemoryQueue.cs:335-356 | both copy branches put the contents, oldest first, at the start of the new buffer |
| MemoryQueues.MemoryQueue.PeekOrDequeueInto | Unosquare.Ser2Net/Memory/MemoryQueue.cs:275-325 | copies the first `min(destination length, Count)` elements, oldest first, leaves the rest of the destination alone, and removes them only when dequeuing |
| MemoryQueues.MemoryQueue.CopyHead | Unosquare.Ser2Net/Memory/MemoryQueue.cs:289-309 | either copy branch writes the first `targetCount` elements to the start of the destination |
| MemoryQueues.MemoryQueue.CopyHeadInOnePiece | Unosquare.Ser2Net/Memory/MemoryQueue.cs:293-295 | the one-piece read writes the head elements in order |
| MemoryQueues.MemoryQueue.CopyHeadInTwoPieces | Unosquare.Ser2Net/Memory/MemoryQueue.cs:299-308 | the wrapped read writes the head elements in order |
| MemoryQueues.MemoryQueue.DequeueInto | Unosquare.Ser2Net/Memory/MemoryQueue.cs:184 | `Dequeue(Span)` returns the copied count and removes exactly those head elements |
| MemoryQueues.MemoryQueue.PeekInto | Unosquare.Ser2Net/Memory/MemoryQueue.cs:250 | `Peek(Span)` copies the head elements and leaves the queue as it was |
| MemoryQueues.MemoryQueue.PeekOrDequeue | Unosquare.Ser2Net/Memory/MemoryQueue.cs:263-272 | returns the first `RequestedCount` elements; contents lose exactly those when dequeuing and are unchanged otherwise |
| MemoryQueues.MemoryQueue.Dequeue | Unosquare.Ser2Net/Memory/MemoryQueue.cs:191 | `Dequeue(n)` returns and removes the first `min(n, Count)` elements, or all of them for a negative `n` |
| MemoryQueues.MemoryQueue.DequeueAll | Unosquare.Ser2Net/Memory/MemoryQueue.cs:197 | returns every element in order and leaves the queue empty with both cursors at 0 |
| MemoryQueues.MemoryQueue.Peek | Unosquare.Ser2Net/Memory/MemoryQueue.cs:243 | `Peek(n)` returns the first `RequestedCount(n, Count)` elements |
| MemoryQueues.MemoryQueue.TryPeekAt | Unosquare.Ser2Net/Memory/MemoryQueue.cs:210-228 | succeeds exactly when `max(offset, 0) < Count`, and then yields the element that many places after the head |
| MemoryQueues.MemoryQueue.TryPeek | Unosquare.Ser2Net/Memory/MemoryQueue.cs:236 | succeeds exactly on a non-empty queue, yielding the head |
| MemoryQueues.MemoryQueue.Dispose | Unosquare.Ser2Net/Memory/MemoryQueue.cs:253-260 | marks the queue disposed and changes neither contents nor cursors; repeating it is harmless |
| BufferQueues.BlockCopyCountBounds | Unosquare.Ser2Net/BufferQueue.cs:383-400 | the `BlockCopy` count stays inside both windows and never exceeds the request; it is the request when that fits, otherwise the room that ran out; it is zero exactly when the request is not positive or a window is empty |
| BufferQueues.BlockCopy | Unosquare.Ser2Net/BufferQueue.cs:383-400 | copies and returns the clamped count; a zero count leaves the destination unchanged |
| BufferQueues.BlockCopyExact | Unosquare.Ser2Net/BufferQueue.cs:403-412 | every queue-internal call passes a source window that fits, so all of it is copied |
| BufferQueues.BufferQueue.constructor | Unosquare.Ser2Net/BufferQueue.cs:43-49 | the queue starts empty; a non-positive capacity falls back to 2048 for the growth step; the buffer is rented at the size asked for |
| BufferQueues.BufferQueue.Clear | Unosquare.Ser2Net/BufferQueue.cs:96-104 | empties the queue and zeroes both cursors |
| BufferQueues.BufferQueue.ClearFirst | Unosquare.Ser2Net/BufferQueue.cs:109-128 | drops the first `ClearedCount(n, Count)` elements; nothing changes for `n <= 0` |
| BufferQueues.BufferQueue.DiscardHead | Unosquare.Ser2Net/BufferQueue.cs:331-341 | moves the read head `n` slots on, or resets both cursors to 0 when the queue empties |
| BufferQueues.BufferQueue.Enqueue | Unosquare.Ser2Net/BufferQueue.cs:134-169 | contents become old contents followed by the elements; an empty input changes nothing; overflow reallocates to the growth target |
| BufferQueues.BufferQueue.EnqueueFrom | Unosquare.Ser2Net/BufferQueue.cs:176 | enqueues `elements[startIndex..]`; an index outside the span is `ArgumentOutOfRangeException` and changes nothing |
| BufferQueues.BufferQueue.EnqueueSlice | Unosquare.Ser2Net/BufferQueue.cs:184 | enqueues the slice; a slice outside the span is `ArgumentOutOfRangeException` and changes nothing |
| BufferQueues.BufferQueue.CopyToTail | Unosquare.Ser2Net/BufferQueue.cs:147-164 | the three write branches keep the ring invariant with the elements appended |
| BufferQueues.BufferQueue.CopyAtTail | Unosquare.Ser2Net/BufferQueue.cs:163 | the one-piece write at the write tail appends in ring order |
| BufferQueues.BufferQueue.CopyAroundEnd | Unosquare.Ser2Net/BufferQueue.cs:155-159 | the two-piece write appends in ring order |
| BufferQueues.BufferQueue.Reallocate | Unosquare.Ser2Net/BufferQueue.cs:350-380 | nothing happens unless the target exceeds the capacity; otherwise a rented buffer of at least the target holds the contents in FIFO order, with read head 0 and write tail `Count` |
| BufferQueues.BufferQueue.CopyContents | Unosquare.Ser2Net/BufferQueue.cs:357-368 | both copy branches put the contents, oldest first, at the start of the new buffer |
| BufferQueues.BufferQueue.CopyHead | Unosquare.Ser2Net/BufferQueue.cs:312-329 | the three read branches write the first `targetCount` elements in order |
| BufferQueues.BufferQueue.CopyHeadInOnePiece | Unosquare.Ser2Net/BufferQueue.cs:320-323 | the one-piece read writes the head elements in order |
| BufferQueues.BufferQueue.CopyHeadInTwoPieces | Unosquare.Ser2Net/BufferQueue.cs:324-328 | the wrapped read writes the head elements in order |
| BufferQueues.BufferQueue.PeekOrDequeueInto | Unosquare.Ser2Net/BufferQueue.cs:299-345 | copies `min(length, Count)` head elements to the span, and removes them only when dequeuing |
| BufferQueues.BufferQueue.DequeueInto | Unosquare.Ser2Net/BufferQueue.cs:191 | `Dequeue(Span)` returns the copied count and removes those elements |
| BufferQueues.BufferQueue.DequeueIntoFrom | Unosquare.Ser2Net/BufferQueue.cs:199 | dequeues into `destination[startIndex..]`; a bad index is `ArgumentOutOfRangeException` and changes nothing |
| BufferQueues.BufferQueue.DequeueIntoSlice | Unosquare.Ser2Net/BufferQueue.cs:208 | dequeues into the slice; a bad slice is `ArgumentOutOfRangeException` and changes nothing |
| BufferQueues.BufferQueue.PeekInto | Unosquare.Ser2Net/BufferQueue.cs:271 | copies the head elements, leaving the queue unchanged |
| BufferQueues.BufferQueue.PeekOrDequeue | Unosquare.Ser2Net/BufferQueue.cs:287-296 | returns the first `RequestedCount` elements, removing them only when dequeuing |
| BufferQueues.BufferQueue.Dequeue | Unosquare.Ser2Net/BufferQueue.cs:215 | returns and removes up to `n` head elements, or all of them for a negative `n` |
| BufferQueues.BufferQueue.DequeueAll | Unosquare.Ser2Net/BufferQueue.cs:221 | `Dequeue()` passes -1, so it drains everything and resets the cursors |
| BufferQueues.BufferQueue.Peek | Unosquare.Ser2Net/BufferQueue.cs:264 | returns the first `RequestedCount(n, Count)` elements |
| BufferQueues.BufferQueue.TryPeekAt | Unosquare.Ser2Net/BufferQueue.cs:234-249 | succeeds exactly when `max(offset, 0) < Count`, yielding that element |
| BufferQueues.BufferQueue.TryPeek | Unosquare.Ser2Net/BufferQueue.cs:257 | succeeds exactly on a non-empty queue, yielding the head |
| BufferQueues.BufferQueue.Dispose | Unosquare.Ser2Net/BufferQueue.cs:274-284 | sets `IsDisposed` and keeps the contents; a second call changes nothing |
| MemoryBlocks.BlockCopyResultBounds | Unosquare.Ser2Net/Memory/MemoryBlock.cs:91-105 | the copy is 0 exactly in the early-return cases; a negative offset past them is an error; otherwise `min(count, source room, target room)`, a negative count meaning as many as fit, always inside both windows |
| MemoryBlocks.SpanCopyIsBlockCopy | Unosquare.Ser2Net/Memory/MemoryBlock.cs:121-122 | the span overload with a target offset is the same clamped copy as one at that offset |
| MemoryBlocks.MemoryBlock.constructor | Unosquare.Ser2Net/Memory/MemoryBlock.cs:18-22 | a new block has the requested length, every element zero |
| MemoryBlocks.New | Unosquare.Ser2Net/Memory/MemoryBlock.cs:20 | a length that is not positive is `ArgumentOutOfRangeException`; otherwise a zero-filled block of that length |
| MemoryBlocks.NewDefault | Unosquare.Ser2Net/Memory/MemoryBlock.cs:27-30 | the parameterless constructor makes a zero-filled block of 1024 elements |
| MemoryBlocks.MemoryBlock.CopyToBlock | Unosquare.Ser2Net/Memory/MemoryBlock.cs:91-105 | a null target gives 0; otherwise the result is `BlockCopyResult`, and only `target[targetOffset..targetOffset+n)` changes, to the source's elements |
| MemoryBlocks.MemoryBlock.CopyToSpan | Unosquare.Ser2Net/Memory/MemoryBlock.cs:107-119 | the same clamping against the span's length, writing from the span's start |
| MemoryBlocks.MemoryBlock.CopyToSpanAt | Unosquare.Ser2Net/Memory/MemoryBlock.cs:121-122 | slices the target at the offset first; a bad offset is `ArgumentOutOfRangeException` |
| MemoryBlocks.MemoryBlock.Clear | Unosquare.Ser2Net/Memory/MemoryBlock.cs:124 | every element becomes zero |
| MemoryBlocks.MemoryBlock.Pin | Unosquare.Ser2Net/Memory/MemoryBlock.cs:159-165 | succeeds exactly for an index in `[0, Length)`, otherwise `ArgumentOutOfRangeException` |
| MemoryBlocks.MemoryBlock.Dispose | Unosquare.Ser2Net/Memory/MemoryBlock.cs:132-187 | afterwards the block is disposed with length 0; a second call changes nothing |
| MemoryExtensions.SpanToBlockSucceeds | Unosquare.Ser2Net/Memory/MemoryExtensions.cs:5-18 | past the early return, the copy succeeds exactly when the whole source fits after the offset and the count does not cut it short; it then reports the source length |
| MemoryExtensions.CopyTo | Unosquare.Ser2Net/Memory/MemoryExtensions.cs:5-18 | a null target gives 0; otherwise the result is `SpanToBlockResult`, and on success the source lands at `target[targetOffset..]` and nothing else changes |
| MemoryExtensions.CopyToFromOffset | Unosquare.Ser2Net/Memory/MemoryExtensions.cs:20-22 | the source-offset overload is the base copy of `source[sourceOffset..]`; a bad offset is `ArgumentOutOfRangeException` |
| DataBridges.DataBridge.constructor | Unosquare.Ser2Net/Memory/DataBridge.cs:15-21 | two distinct, empty queues of capacity `BridgeQueueSize` (2048) |
| DataBridges.DataBridge.EnqueueToPort | Unosquare.Ser2Net/Memory/DataBridge.cs:15 | appending to the to-port queue leaves the to-net queue untouched |
| DataBridges.DataBridge.EnqueueToNet | Unosquare.Ser2Net/Memory/DataBridge.cs:21 | appending to the to-net queue leaves the to-port queue untouched |
| DataBridges.DataBridge.Dispose | Unosquare.Ser2Net/Memory/DataBridge.cs:24-28 | both queues end disposed with their contents kept |
| Aggregates.SumAppend | Unosquare.Ser2Net/Statistics/StatisticsCollector.cs:453-455 | the sum of a concatenation is the sum of the parts |
| Aggregates.MinOfIsLeast | Unosquare.Ser2Net/Statistics/StatisticsCollector.cs:426-427 | the minimum is at most every element and is one of them |
| Aggregates.MaxOfIsGreatest | Unosquare.Ser2Net/Statistics/StatisticsCollector.cs:429-430 | the maximum is at least every element and is one of them |
| Aggregates.MinOfStep | Unosquare.Ser2Net/Statistics/StatisticsCollector.cs:426-427 | the running minimum update gives the minimum of the longer prefix |
| Aggregates.MaxOfStep | Unosquare.Ser2Net/Statistics/StatisticsCollector.cs:429-430 | the running maximum update gives the maximum of the longer prefix |
| Aggregates.SumStep | Unosquare.Ser2Net/Statistics/StatisticsCollector.cs:453-455 | the running sum update gives the sum of the longer prefix |
| Statistics.AdmitKeepsRecent | Unosquare.Ser2Net/Statistics/StatisticsCollector.cs:491-496 | evicting the oldest sample when full, then appending, keeps the window equal to the newest `Capacity` samples, in order |
| Statistics.Recent | Unosquare.Ser2Net/Statistics/StatisticsCollector.cs:492-493 | the window never holds more than `Capacity` samples |
| Statistics.LastRaiseNone | Unosquare.Ser2Net/Statistics/StatisticsCollector.cs:445-463 | the natural elapsed time is missing exactly when no sample after the first starts later than the first |
| Statistics.OneSampleHasNoNaturalElapsed | Unosquare.Ser2Net/Statistics/StatisticsCollector.cs:458-463 | a one-sample window has no natural elapsed time |
| Statistics.NaturalElapsedPositive | Unosquare.Ser2Net/Statistics/StatisticsCollector.cs:346-358 | a natural elapsed time, when present, is positive, so the natural rate never divides by zero |
| Statistics.RunningStep | Unosquare.Ser2Net/Statistics/StatisticsCollector.cs:418-453 | the `??=` then compare-and-replace update keeps min, max and sum of the scanned prefix |
| Statistics.ScanStep | Unosquare.Ser2Net/Statistics/StatisticsCollector.cs:416-454 | one loop pass extends every aggregate to the next prefix; the last-raise value moves exactly when the sample starts after every earlier one |
| Statistics.ScanSamples | Unosquare.Ser2Net/Statistics/StatisticsCollector.cs:405-463 | the scan leaves exactly the aggregates of the window: count, sums, minima, maxima and natural elapsed time |
| Statistics.StatisticsCollector.constructor | Unosquare.Ser2Net/Statistics/StatisticsCollector.cs:46-53 | a new collector has an empty window and history, no lifetime timestamp, and the given capacity and zero policy |
| Statistics.New | Unosquare.Ser2Net/Statistics/StatisticsCollector.cs:48 | a capacity that is not positive is `ArgumentOutOfRangeException` |
| Statistics.NewDefault | Unosquare.Ser2Net/Statistics/StatisticsCollector.cs:55-64 | the shorter constructors use the default capacity 1000 |
| Statistics.StatisticsCollector.LifetimeSamplesSum | Unosquare.Ser2Net/Statistics/StatisticsCollector.cs:89-96 | the sum of the values of every sample ever accepted, evicted or not |
| Statistics.StatisticsCollector.LifetimeSampleCount | Unosquare.Ser2Net/Statistics/StatisticsCollector.cs:102-109 | the number of samples ever accepted, never less than the window size |
| Statistics.StatisticsCollector.CurrentSampleCount | Unosquare.Ser2Net/Statistics/StatisticsCollector.cs:114-121 | the window size, never above the capacity |
| Statistics.StatisticsCollector.CurrentElapsedSum | Unosquare.Ser2Net/Statistics/StatisticsCollector.cs:132-139 | absent for an empty window, else the sum of the window's elapsed times |
| Statistics.StatisticsCollector.CurrentElapsedAverage | Unosquare.Ser2Net/Statistics/StatisticsCollector.cs:150-157 | absent for an empty window, else that sum over the window size |
| Statistics.StatisticsCollector.CurrentElapsedMin | Unosquare.Ser2Net/Statistics/StatisticsCollector.cs:168-176 | the least elapsed time in the window, absent when it is empty |
| Statistics.StatisticsCollector.CurrentElapsedMax | Unosquare.Ser2Net/Statistics/StatisticsCollector.cs:187-195 | the greatest elapsed time in the window, absent when it is empty |
| Statistics.StatisticsCollector.CurrentSamplesSum | Unosquare.Ser2Net/Statistics/StatisticsCollector.cs:201-208 | absent for an empty window, else the sum of its values |
| Statistics.StatisticsCollector.CurrentSamplesAverage | Unosquare.Ser2Net/Statistics/StatisticsCollector.cs:214-221 | absent for an empty window, else that sum over the window size |
| Statistics.StatisticsCollector.CurrentSamplesMin | Unosquare.Ser2Net/Statistics/StatisticsCollector.cs:227-234 | the least value in the window, absent when it is empty |
| Statistics.StatisticsCollector.CurrentSamplesMax | Unosquare.Ser2Net/Statistics/StatisticsCollector.cs:240-247 | the greatest value in the window, absent when it is empty |
| Statistics.StatisticsCollector.CurrentRatesSum | Unosquare.Ser2Net/Statistics/StatisticsCollector.cs:253-260 | absent for an empty window, else the sum of its rates |
| Statistics.StatisticsCollector.CurrentRatesAverage | Unosquare.Ser2Net/Statistics/StatisticsCollector.cs:266-273 | absent for an empty window, else that sum over the window size |
| Statistics.StatisticsCollector.CurrentRatesMin | Unosquare.Ser2Net/Statistics/StatisticsCollector.cs:279-286 | the least rate in the window, absent when it is empty |
| Statistics.StatisticsCollector.CurrentRatesMax | Unosquare.Ser2Net/Statistics/StatisticsCollector.cs:292-299 | the greatest rate in the window, absent when it is empty |
| Statistics.StatisticsCollector.CurrentTimestampMin | Unosquare.Ser2Net/Statistics/StatisticsCollector.cs:305-312 | the earliest start timestamp in the window, absent when it is empty |
| Statistics.StatisticsCollector.CurrentTimestampMax | Unosquare.Ser2Net/Statistics/StatisticsCollector.cs:318-325 | the latest start timestamp in the window, absent when it is empty |
| Statistics.StatisticsCollector.CurrentNaturalElapsed | Unosquare.Ser2Net/Statistics/StatisticsCollector.cs:333-340 | the natural elapsed time of the window |
| Statistics.StatisticsCollector.CurrentNaturalRate | Unosquare.Ser2Net/Statistics/StatisticsCollector.cs:346-358 | absent exactly when the natural elapsed time is, else the value sum over it |
| Statistics.StatisticsCollector.Samples | Unosquare.Ser2Net/Statistics/StatisticsCollector.cs:363 | the window, oldest first |
| Statistics.StatisticsCollector.BeginSample | Unosquare.Ser2Net/Statistics/StatisticsCollector.cs:373-377 | the first call fixes the lifetime timestamp and later calls keep it; the recorder starts at the clock reading and has not recorded |
| Statistics.StatisticsCollector.Dispose | Unosquare.Ser2Net/Statistics/StatisticsCollector.cs:380-383 | the sample queue ends disposed |
| Statistics.StatisticsCollector.RecomputeStatistics | Unosquare.Ser2Net/Statistics/StatisticsCollector.cs:385-465 | re-establishes that every stored aggregate is that of the current window |
| Statistics.StatisticsCollector.Accept | Unosquare.Ser2Net/Statistics/StatisticsCollector.cs:487-505 | the sample joins the history and the window, with the oldest evicted when full; the lifetime count grows by one and the sum by the value |
| Statistics.StatisticsCollector.PushSample | Unosquare.Ser2Net/Statistics/StatisticsCollector.cs:491-496 | the window becomes `Admit(window, Capacity, sample)` and nothing else changes |
| Statistics.StatisticsCollector.CopyWindow | Unosquare.Ser2Net/Statistics/StatisticsCollector.cs:408-409 | the scanned copy holds exactly the window |
| Statistics.Recorder.constructor | Unosquare.Ser2Net/Statistics/StatisticsCollector.cs:473-476 | a new recorder targets its collector and has not recorded |
| Statistics.Recorder.Record | Unosquare.Ser2Net/Statistics/StatisticsCollector.cs:478-506 | a second call throws `InvalidOperationException`; an ignored zero changes nothing but uses the recorder's one call; any other value is accepted |
| LegacyStatistics.SumField | Unosquare.Ser2Net/Services/StatisticsCollector.cs:123-129 | the loop returns the sum of the chosen column |
| LegacyStatistics.MinField | Unosquare.Ser2Net/Services/StatisticsCollector.cs:156-166 | the loop returns the minimum of the chosen column |
| LegacyStatistics.MaxField | Unosquare.Ser2Net/Services/StatisticsCollector.cs:177-187 | the loop returns the maximum of the chosen column |
| LegacyStatistics.LegacyCollector.constructor | Unosquare.Ser2Net/Services/StatisticsCollector.cs:8-13 | a new collector has an empty window and history and no lifetime timestamp |
| LegacyStatistics.LegacyCollector.Begin | Unosquare.Ser2Net/Services/StatisticsCollector.cs:15-19 | the lifetime timestamp is set only on the first call; the recorder starts at the clock reading |
| LegacyStatistics.LegacyCollector.LifetimeSamplesSum | Unosquare.Ser2Net/Services/StatisticsCollector.cs:32-39 | the sum of every committed value |
| LegacyStatistics.LegacyCollector.CopyWindow | Unosquare.Ser2Net/Services/StatisticsCollector.cs:48-49 | the peeked copy holds exactly the window |
| LegacyStatistics.LegacyCollector.CurrentElapsedSum | Unosquare.Ser2Net/Services/StatisticsCollector.cs:41-56 | absent for an empty window, else the sum of its elapsed times |
| LegacyStatistics.LegacyCollector.CurrentElapsedAverage | Unosquare.Ser2Net/Services/StatisticsCollector.cs:58-71 | absent for an empty window, else that sum over the window size |
| LegacyStatistics.LegacyCollector.CurrentElapsedMin | Unosquare.Ser2Net/Services/StatisticsCollector.cs:73-93 | absent for an empty window, else its least elapsed time |
| LegacyStatistics.LegacyCollector.CurrentElapsedMax | Unosquare.Ser2Net/Services/StatisticsCollector.cs:95-114 | absent for an empty window, else its greatest elapsed time |
| LegacyStatistics.LegacyCollector.CurrentSamplesSum | Unosquare.Ser2Net/Services/StatisticsCollector.cs:116-131 | absent for an empty window, else the sum of its values |
| LegacyStatistics.LegacyCollector.CurrentSamplesAverage | Unosquare.Ser2Net/Services/StatisticsCollector.cs:133-147 | absent for an empty window, else that sum over the window size |
| LegacyStatistics.LegacyCollector.CurrentSamplesMin | Unosquare.Ser2Net/Services/StatisticsCollector.cs:149-168 | absent for an empty window, else its least value |
| LegacyStatistics.LegacyCollector.CurrentSamplesMax | Unosquare.Ser2Net/Services/StatisticsCollector.cs:170-189 | absent for an empty window, else its greatest value |
| LegacyStatistics.LegacyCollector.Samples | Unosquare.Ser2Net/Services/StatisticsCollector.cs:194 | the window, oldest first |
| LegacyStatistics.LegacyCollector.Dispose | Unosquare.Ser2Net/Services/StatisticsCollector.cs:196-199 | the sample queue ends disposed |
| LegacyStatistics.LegacyCollector.Accept | Unosquare.Ser2Net/Services/StatisticsCollector.cs:217-230 | the sample joins the history and the 1000-sample window, oldest evicted first; count and sum grow by one sample |
| LegacyStatistics.LegacyCollector.PushSample | Unosquare.Ser2Net/Services/StatisticsCollector.cs:218-221 | the window becomes `Admit(window, 1000, sample)` and nothing else changes |
| LegacyStatistics.LegacyRecorder.constructor | Unosquare.Ser2Net/Services/StatisticsCollector.cs:207-210 | a new recorder targets its collector and has not committed |
| LegacyStatistics.LegacyRecorder.Commit | Unosquare.Ser2Net/Services/StatisticsCollector.cs:212-231 | the first commit is accepted; a later one is silently ignored and changes nothing |
| LegacyStatistics.LegacyRecorder.Dispose | Unosquare.Ser2Net/Services/StatisticsCollector.cs:233-237 | throws `InvalidOperationException` exactly when nothing was committed |
| StatisticsExtensions.ToBits | Unosquare.Ser2Net/Statistics/StatisticsExtensions.cs:20-40 | the quantity converts back to `abs(bytes * 8)` bits; Mbits exactly above 1,000,000 bits, plain bits exactly up to 1,000; a scaled unit always leaves more than one of it |
| StatisticsExtensions.ReportStatistics | Unosquare.Ser2Net/Statistics/StatisticsExtensions.cs:5-18 | a report is due exactly when the lifetime count is positive, differs from the last reported count, and is a multiple of the report interval; it carries the lifetime total, and rate and peak are "N/A" exactly when absent; the ref count comes back unchanged |
| StatisticsExtensions.RateBits | Unosquare.Ser2Net/Statistics/StatisticsExtensions.cs:15 | the rate text is "N/A" exactly when the natural rate is absent |
| StatisticsExtensions.RepeatedReportAsWritten | Unosquare.Ser2Net/Statistics/StatisticsExtensions.cs:5-18 | as written, feeding the returned count back in produces the same report again; this follows in one step from `ReportStatistics` returning the count unchanged |
| StatisticsExtensions.ReportStatisticsUpdating | Unosquare.Ser2Net/Statistics/StatisticsExtensions.cs:5-18 | the same decision and report, with the ref count set to the reported count |
| StatisticsExtensions.ReportOncePerCount | Unosquare.Ser2Net/Statistics/StatisticsExtensions.cs:9-11 | with the count written back, a repeated call for the same lifetime count reports nothing |
| SerialPortBrokers.LeadingSpace | Unosquare.Ser2Net/Workers/SerialPortBroker.cs:123 | counts the leading white-space characters: all of them are white space and the next one is not |
| SerialPortBrokers.TrailingSpace | Unosquare.Ser2Net/Workers/SerialPortBroker.cs:123 | counts the trailing white-space characters: all of them are white space and the one before is not |
| SerialPortBrokers.TrimIsSlice | Unosquare.Ser2Net/Workers/SerialPortBroker.cs:123 | `Trim` returns a contiguous slice of its input |
| SerialPortBrokers.TrimDropsSpace | Unosquare.Ser2Net/Workers/SerialPortBroker.cs:123 | everything `Trim` cuts off is white space |
| SerialPortBrokers.TrimEnds | Unosquare.Ser2Net/Workers/SerialPortBroker.cs:123 | a trimmed string neither starts nor ends with white space |
| SerialPortBrokers.TrimBlank | Unosquare.Ser2Net/Workers/SerialPortBroker.cs:119-123 | trimming yields the empty string exactly for a blank setting |
| SerialPortBrokers.FirstMatchingSpec | Unosquare.Ser2Net/Workers/SerialPortBroker.cs:122-133 | at most one name is kept; none exactly when no name equals the wanted one ignoring case; otherwise the first such name |
| SerialPortBrokers.FirstOpenableSpec | Unosquare.Ser2Net/Workers/SerialPortBroker.cs:104-114 | the candidates are tried in order; the first that opens is the port; none opens exactly when no port results |
| SerialPortBrokers.NoCandidateNoPort | Unosquare.Ser2Net/Workers/SerialPortBroker.cs:91-101 | with no enumerated ports, or a non-blank setting that matches none, no port is connected |
| SerialPortBrokers.GetWantedPortNames | Unosquare.Ser2Net/Workers/SerialPortBroker.cs:117-134 | the loop returns `Candidates`: every name for a blank setting, otherwise the first case-insensitive match of the trimmed setting |
| SerialPortBrokers.TryConnectSerialPort | Unosquare.Ser2Net/Workers/SerialPortBroker.cs:88-115 | the connected port is the first candidate that opens, and none when there is no such candidate |
| SerialPortBrokers.SerialPortBroker.constructor | Unosquare.Ser2Net/Workers/SerialPortBroker.cs:16-21 | a 4096-byte write buffer, no port and no pending delay |
| SerialPortBrokers.SerialPortBroker.Drain | Unosquare.Ser2Net/Workers/SerialPortBroker.cs:25 | dequeues `min(4096, queued)` bytes from the to-port queue into the write buffer, and leaves the to-net queue unchanged |
| SerialPortBrokers.SerialPortBroker.Serve | Unosquare.Ser2Net/Workers/SerialPortBroker.cs:43-75 | for a read of at most the 4096-byte read buffer (`WellFormed`): a read fault drops the port; received bytes are enqueued to the net side only when some were read; a write fault with bytes pending drops the port; otherwise the tick is served, and it pauses when nothing is left to read or write |
| SerialPortBrokers.SerialPortBroker.Tick | Unosquare.Ser2Net/Workers/SerialPortBroker.cs:22-75 | every tick drains first; a pending delay only waits and clears; with no port it connects, and a failed connect sets the delay; a connected port is served; the tick waits exactly when a delay was due, leaves a delay due exactly when its connect failed, and adds to the network queue exactly what it read |
| SerialPortBrokers.SerialPortBroker.TickAt | Unosquare.Ser2Net/Workers/SerialPortBroker.cs:22-75 | one loop pass keeps the run facts: the wait pattern, failed connects only when no port opens, each served tick writing its own block, and the network queue growing by what the tick read |
| SerialPortBrokers.SerialPortBroker.Run | Unosquare.Ser2Net/Workers/SerialPortBroker.cs:22-78 | one step per tick and no port held afterwards; a tick waits exactly when the tick before it failed to connect (so every failed connect but a last one is followed by a wait); a connect fails only when no wanted port opens; served tick `k` writes exactly the `k`-th 4096-byte block of the bytes queued toward the port; the port queue loses its first `|ios|` blocks, or everything when it held less; the network queue gains exactly what the ticks read, in order |
| NetServers.StopIndex | Unosquare.Ser2Net/Workers/NetServer.cs:76-113 | the accept loop consumes accepted connections up to the first event that is not one |
| NetServers.RemoveOnly | Unosquare.Ser2Net/Workers/NetServer.cs:55-56 | as no client is under two ids, removing a client's key removes exactly the entries holding that client |
| NetServers.NetServer.constructor | Unosquare.Ser2Net/Workers/NetServer.cs:10-11 | an empty registry with last id 0 |
| NetServers.NetServer.KeySnapshot | Unosquare.Ser2Net/Workers/NetServer.cs:52 | the key array holds every registered id exactly once |
| NetServers.NetServer.Clients | Unosquare.Ser2Net/Workers/NetServer.cs:40 | the snapshot holds exactly the registered clients, each once |
| NetServers.NetServer.Disconnect | Unosquare.Ser2Net/Workers/NetServer.cs:47-62 | null is ignored; otherwise exactly the entries holding the client are removed, every other entry stays, and the client is disposed exactly when it was registered |
| NetServers.NetServer.Admit | Unosquare.Ser2Net/Workers/NetServer.cs:85-100 | a full registry rejects and disposes the client; an unconnected client is disposed; otherwise it is registered under the next id, above every id in use; the registry never exceeds `MaxClientCount` |
| NetServers.NetServer.ShutDown | Unosquare.Ser2Net/Workers/NetServer.cs:121-131 | every registered client is disposed and the registry ends empty |
| NetServers.NetServer.AcceptLoop | Unosquare.Ser2Net/Workers/NetServer.cs:76-114 | every consumed client ends registered or disposed, never both; only connected clients are registered, and an unconnected client ends disposed and unregistered; only consumed clients join the registry; the loop is rethrown exactly when it stops at a failure, and ends quietly on cancellation |
| NetServers.NetServer.AdmitEvent | Unosquare.Ser2Net/Workers/NetServer.cs:76-100 | one loop pass admits the next accepted client and keeps every earlier client settled: registered exactly when not disposed, and registered only when connected |
| NetServers.NetServer.ExecuteAsync | Unosquare.Ser2Net/Workers/NetServer.cs:65-132 | the registry ends empty; every client it held and every client the loop consumed is disposed; the call is rethrown exactly on a start fault or a failure in the loop |

## Left out

- Locks, `Interlocked`, `ConcurrentDictionary` and every race: the operations are sequential. The unlocked read of `Count` in the array-returning `PeekOrDequeue` and a `TryRemove` losing a race in `Disconnect` are not modelled.
- Operations on a disposed `MemoryQueue` or `BufferQueue` are excluded by precondition. Their behaviour depends on the pool's and the native block's internals, which are not part of this model.
- `MemoryQueue` parameterless constructor: its 1024 default is the same constructor with a fixed argument.
- `BufferQueue` with a negative initial capacity: what `MemoryPool.Rent` does then is outside the model, so the constructor takes a `nat`.
- `BufferQueue`'s pinned `MemoryHandle` and the pool's buffer ownership are not modelled; `BlockCopy`'s `TryCopyTo` never fails here because both windows have the same length.
- `MemoryBlock`'s `Pointer`, `Address`, `ByteLength`, `Memory`, `Span`, `Slice` and the `void*` `CopyTo`, and `NativeMemoryManager` (raw native memory).
- `MemoryBlock.Pin` returns the pinned index instead of a `MemoryHandle`.
- `Services/DataBridge.cs` is not part of this model. It is the earlier variant of the bridge; `Memory/DataBridge.cs` is modelled.
- Floating point: sample values, elapsed times, rates and timestamps are integers in one time unit. A sample's rate and elapsed time are parameters, because they come from the clock and a division. Averages and the natural rate are kept as a numerator/denominator pair.
- Statistics.Accept: updates the lifetime totals before enqueuing, where the source enqueues first. The two updates touch disjoint state.
- Statistics.StatisticsCollector: the `sCurrent…` fields are one `Stats` record that `RecomputeStatistics` replaces as a whole.
- `unchecked` wrap-around of the lifetime sum and count, and the 32-bit wrap of client ids, are not modelled (integers are unbounded).
- Rings.GrowthTarget, MemoryQueues.MemoryQueue.Enqueue, BufferQueues.BufferQueue.Enqueue: the `int` sum `Count + elementCount + CapacityGrowth` and the cursor sum `WriteIndex + elementCount` can overflow in C# for queues near 2^31 elements; the model's integers are unbounded, so it does not capture that overflow.
- LegacyStatistics.LegacyCollector.CurrentSamplesSum, LegacyStatistics.LegacyCollector.CurrentElapsedSum: the legacy `accumValue += sample.Value` wraps when `T` is an integer type; the model sums unbounded integers.
- `TimeSpan` conversions (`FromMilliseconds`, `* 1000d`) and the `double.Parse` round trip of the older average are not modelled.
- StatisticsExtensions.ToBits: does not model `Math.Round` to two decimals or the `n2` formatting, because those act on floating point; the result is the exact quantity before rounding.
- The logger calls (`LogDataStatistics` and the others) are not modelled; a report is the value that would be logged.
- SerialPortBrokers.ToUpper: case-insensitive comparison folds ASCII letters only, because .NET's ordinal case folding over all of Unicode is a table outside the model.
- SerialPortBrokers.SerialPortBroker.Serve: the second `BytesToRead` read (the idle check) is taken as a value and never throws.
- The 500 ms retry delay and the 1 ms idle pause are recorded as the step's outcome, not as elapsed time. The stopping token is the end of the tick sequence.
- `TrySerialPortConnection`'s construction of a `SerialPort` with baud rate, parity, data bits and stop bits is folded into the `canOpen` input.
- `NetworkClient` is reduced to its connected and disposed flags. Its socket, endpoints and logging are not modelled.
- The listener (`TcpListener` start, stop and dispose) is reduced to a start fault flag. The accept loop takes its events as a sequence and finds the stopping point before admitting, which is the same order the source observes.
- Process hosting, supervision, configuration, logging helpers and install tooling are outside the core.

## Findings

| source | as written | input that shows it | evidently intended | confidence | as-written member | corrected member |
|---|---|---|---|---|---|---|
| Unosquare.Ser2Net/Statistics/StatisticsExtensions.cs:5-18 | `lastReportSampleCount` is passed by `ref` and compared, but never assigned, so the "already reported" guard can never fire | a collector whose lifetime count stays on a multiple of `ReportSampleCount` across two calls: both calls report | assign the reported count to `lastReportSampleCount` after a report | medium, not executed | StatisticsExtensions.RepeatedReportAsWritten | StatisticsExtensions.ReportOncePerCount |
