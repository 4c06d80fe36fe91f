# Scanner sample pipeline, modelled in Dafny

The scanner tunes a software-defined radio across a frequency range. At each
centre frequency a source thread reads a block of samples and appends it to a
queue. A processing thread pops the blocks in order, and a write thread can
copy the blocks between a start id and an end id to a file.

This project models the core of that pipeline:

- **`CircularBuffer`** (buffer.h, buffer.cpp). A ring of `bufferCount`
  blocks of `BufferSize` elements. The sample thread appends to it, and
  readers drain it by sequence id into a sink. The block and iterator
  arithmetic is in module `RingGeometry`; the buffer itself is class
  `CircularBuffers.CircularBuffer`.
- **The sinks** (`ProcessInterface` in buffer.h, processInterface.cpp). The
  copy sink copies the items it is handed into an output array. The file sink
  appends them to a file. Module `Sinks` gives each call (`Begin`, `Process`,
  `End`) a meaning as a pure step function, and the class methods are proved
  to follow it.
- **`SampleBuffer`** (sampleBuffer.cpp). A bounded FIFO of fixed-size
  sample blocks built on a ring of 16 blocks of 8192 * 16 elements, which
  records the centre frequency of every block.
- **`MessageQueue`** (messageQueue.h) and **`MemoryPool`** (memoryPool.h).
  Pooled messages with consecutive sequence ids go through a bounded queue.
  Processed messages are kept in a short retention buffer, which the write
  thread walks.
- **`SignalSource`** (signalSource.cpp). The list of centre frequencies, the
  countdown of scans, and the timing records.
- **`FrequencyTable`** (frequencyTable.cpp). The table of frequencies a scan
  steps through, with an opaque `void *` per entry and a count of completed
  scans.
- **`Arguments`** (arguments.cpp). A device option string split into
  `name=value` tokens. The first token with a given name decides its value,
  and integer values are read as `std::stoi` reads them.

The code that changes state in place is modelled as classes with `modifies`
clauses: the buffers, queues, pool, tables and sources. Each class keeps a
ghost record of what was done to it, and its methods are proved against that
record:

- `history`: every element appended to the ring.
- `appends`: every block appended to a sample buffer.
- `accepted`: every message enqueued.
- `ops`: the pool operations.
- `calls`: every call a sink has received.

The pure arithmetic and parsing are functions with lemmas. The loops of the
source stay loops with invariants: the ring's item count, its append and read
loops, the option scanner, the frequency-table constructor, and the writer's
search and walk.

Module `Arith` holds integer and real lemmas the proofs share.
`Wrappers` holds `Option`.

Plain accessors (`GetIsDone`, `GetFrequencyCount`, `GetIterationCount`,
`GetIsScanStart`, `GetFrequencyFromIndex`, `SignalSource.GetCurrentFrequency`)
read a field and carry no contract of their own, so they have no row below.

## Model

| member | source | states |
|---|---|---|
| `Sinks.CopyProcessRun` | processInterface.cpp:80-84 | A run of `Process` calls on the copy sink succeeds exactly when all the chunks fit behind `m_count`. It then writes their concatenation there, leaves the rest of the array alone and advances `m_count` by the number of items. |
| `Sinks.FileProcessRun` | processInterface.cpp:35-53 | A run of `Process` calls on the file sink always succeeds. It appends the concatenated chunks to the file and advances `m_count` by their total. |
| `Sinks.RoundRun` | processInterface.cpp:30-90 | From a sink between rounds, `Begin(id, n)`, the `Process` calls and `End` succeed exactly when the chunks hold `n` items and, for the copy sink, fit in the array. The counters then end at 0. The items end up in call order at the front of the array or at the end of the file. |
| `Sinks.ProcessInterface.CopyBuffer` | processInterface.cpp:63-69 | The copy sink starts with both counters at 0, the caller's output array, and no request merging. |
| `Sinks.ProcessInterface.FileWrite` | processInterface.cpp:9-21 | The file sink starts with both counters at 0, an empty file, and request merging on. |
| `Sinks.ProcessInterface.GetDoMergeRequests` | buffer.h:14-20 | The flag is true exactly for the file sink. |
| `Sinks.ProcessInterface.Begin` | processInterface.cpp:75-78 | For both sinks (also lines 30-33): records the announced count. It does not reset `m_count`, touches nothing else, and is one step of the sink's meaning. |
| `Sinks.ProcessInterface.Process` | processInterface.cpp:80-84 | The copy sink writes the items at `m_outputBuffer[m_count..]` and keeps the rest of the array. The file sink (lines 35-53) appends them to the file. Both advance `m_count` by the item count. |
| `Sinks.ProcessInterface.End` | processInterface.cpp:86-90 | For both sinks (also lines 55-59): requires that the expected count arrived, then resets both counters. |
| `RingGeometry.IteratorEqualIffSamePosition` | buffer.cpp:118-123 | Two iterators inside the ring are equal exactly when they have the same linear position. |
| `RingGeometry.NextIndex` | buffer.cpp:147-151 | The next block index stays in the ring. |
| `RingGeometry.PreviousIndex` | buffer.cpp:166-174 | The previous block index stays in the ring. |
| `RingGeometry.NextPreviousInverse` | buffer.cpp:147-174 | NextIndex and PreviousIndex undo each other in both orders. |
| `RingGeometry.Plus` | buffer.cpp:62-84 | `operator+` on an iterator in range gives an iterator in range whose position is `count` further on, modulo the capacity. |
| `RingGeometry.Minus` | buffer.cpp:86-109 | `operator-` gives an iterator in range which, moved `count` forward, is back at the start. |
| `RingGeometry.BufferItemRange` | buffer.cpp:176-208 | The begin and end of a block's data satisfy `begin <= end <= BufferSize`. The end iterator's block ends at the end iterator. A block holding neither iterator is whole. These bounds serve only the backward walk of `operator-`, whose result is discarded. |
| `RingGeometry.GetFreeItemsAtEnd` | buffer.cpp:241-245 | The room at the end is between 1 and a block, and reaches exactly the next block boundary inside the ring. |
| `RingGeometry.GetValidItemsAt` | buffer.cpp:249-265 | How far a read at `iter` may go: never past its block. At or behind the end of a ring that is not full, the lesser of the rest of the block and the distance to the end, so a walk behind the end takes at least one item and never passes the end. In a full ring, or past the end, the rest of the block. |
| `CircularBuffers.AddedRequest` | buffer.cpp:279-310 | Trimming against the newest request. The count never grows. Nothing is pushed exactly when the newest request reaches from the read's start past its end. With no request reaching the start, the whole read `(sequenceId, count)` is pushed and `count` returned, even when `count` is 0. When the newest request covers the start but not the end, only the rest past it is pushed and returned. The result is 0 exactly when the read is empty or already covered. With an older request in front, the two requests together cover every id read. |
| `CircularBuffers.BlockChunksPartition` | buffer.cpp:364-371 | The chunks of a read put together are the items read, in order. Each holds 1 to `BufferSize` items, and the first fits in its block. |
| `CircularBuffers.ReadTraceDelivers` | buffer.cpp:346-374 | A read of `n` items from `sequenceId` succeeds on a ready sink. It delivers exactly the items appended at those ids, at the front of the copy array or the end of the file, and leaves the sink's counters at 0. |
| `CircularBuffers.MinusToId` | buffer.cpp:361-363 | Stepping back from the end iterator by `endId - id` lands on the slot of `id`. |
| `CircularBuffers.ValidItemsRead` | buffer.cpp:367 | While a read is behind the ring's end, `GetValidItemsAt` lets it take the rest of its block or of the read. |
| `CircularBuffers.CircularBuffer.constructor` | buffer.cpp:18-41 | The constructor requires more than one block. It starts empty, with both iterators at the origin and no requests. |
| `CircularBuffers.CircularBuffer.IsFull` | buffer.cpp:153-157 | Full exactly when a whole capacity has ever been appended. |
| `CircularBuffers.CircularBuffer.IsEmpty` | buffer.cpp:159-163 | Empty exactly when nothing was ever appended. |
| `CircularBuffers.CircularBuffer.GetEndSequenceId` | buffer.cpp:324-328 | The end id is the number of elements ever appended. |
| `CircularBuffers.CircularBuffer.GetItemCount` | buffer.cpp:125-139 | The block-by-block walk counts `min(endId, capacity)`. When the ring is not full, this is the distance from the begin iterator to the end iterator. |
| `CircularBuffers.CircularBuffer.UpdateBufferEnd` | buffer.cpp:224-237 | The end id grows by `itemCount` and the ring is not empty. An overflow moves the begin iterator to the end, and the ring reports full. |
| `CircularBuffers.CircularBuffer.AppendBlock` | buffer.cpp:210-222 | Appends `min(count, room in the end block)` items, at least one. The history grows by exactly those items, and every slot outside the written range is unchanged. |
| `CircularBuffers.CircularBuffer.AppendItems` | buffer.cpp:312-322 | The history grows by exactly the items, the end id by their count, and the ring keeps holding the newest elements in their slots. |
| `CircularBuffers.CircularBuffer.AddRequest` | buffer.cpp:279-310 | The request list and the count are those of `AddedRequest`. |
| `CircularBuffers.CircularBuffer.ProcessItems` | buffer.cpp:346-374 | Returns the request cut to the ring's contents and, for a merging sink, trimmed by AddRequest. The sink receives exactly the read's trace. The copy array then starts with the items appended at `sequenceId ..`, or the file ends with them. Everything else is unchanged. |
| `CircularBuffers.CircularBuffer.ReadRound` | buffer.cpp:360-372 | `Begin`, the block loop and `End` make exactly the calls of the read's trace, and that trace runs successfully from the sink's state. |
| `CircularBuffers.CircularBuffer.ProcessBlocks` | buffer.cpp:364-371 | The loop makes one `Process` call per block the read touches, with that block's items, and advances the sink's count by `n`. |
| `CircularBuffers.CircularBuffer.ProcessBlock` | buffer.cpp:365-370 | One turn hands the sink `min(left, rest of the block)` items, which are the items appended at those ids, and moves the iterator past them. |
| `CircularBuffers.CircularBuffer.ProcessEndItems` | buffer.cpp:330-336 | Reads the newest `min(count, GetItemCount())` items, ending at the end id. Without merging it returns exactly that many. The request list is the one AddRequest leaves, the sink's counters are back between rounds, and the sink holds exactly the items read (`Delivered`), as for ProcessItems. |
| `CircularBuffers.CircularBuffer.ProcessBeginItems` | buffer.cpp:338-344 | Reads `min(count, GetItemCount())` items from the oldest id held. Without merging it returns exactly that many. The request list is the one AddRequest leaves, the sink's counters are back between rounds, and the sink holds exactly the items read (`Delivered`), as for ProcessItems. |
| `MemoryPools.FifoReuse` | memoryPool.h:59-75 | The buffers handed out, followed by the free list, are the initial list followed by the freed buffers in order: first in, first out. |
| `MemoryPools.MemoryPool.constructor` | memoryPool.h:42-50 | `bufferCount` buffers of `bufferSize` elements are on the free list, and none is out. |
| `MemoryPools.MemoryPool.Allocate` | memoryPool.h:59-67 | Once the list is not empty, takes its front buffer and marks its slot out. |
| `MemoryPools.MemoryPool.Free` | memoryPool.h:68-75 | Puts a buffer that is out at the back of the free list. |
| `MemoryPools.MemoryPool.AllReturned` | memoryPool.h:51-58 | The free-list size plus the buffers out is `bufferCount`. So the destructor's assertion holds exactly when no buffer is out. |
| `MemoryPools.MemoryPool.OutNotFree` | memoryPool.h:68-75 | A slot that is out is not on the free list, so `Free` never lists a buffer twice. |
| `MessageQueues.IterationsCountScanStarts` | messageQueue.h:64-71 | From a fresh queue, and short of 2^32 scan starts, the counter equals the number of scan starts. So appends are kept exactly from the second scan start on. |
| `MessageQueues.FindFromBack` | messageQueue.h:107-112 | The search from `rbegin()` finds the oldest retained message with the start id, or reports that none has it. |
| `MessageQueues.WriteFrom` | messageQueue.h:113-134 | The walk writes the ids of consecutive messages toward the front while they are below the end id. It closes the file exactly when it meets one that is not below. |
| `MessageQueues.WriteSelection` | messageQueue.h:96-137 | One writer wake-up. With no retained start id nothing is written. Otherwise the start id is written first, and every id written is below the end id. |
| `MessageQueues.WriteFromShortens` | messageQueue.h:122 | A lower end id writes a prefix of what a higher one writes. |
| `MessageQueues.EndWriteShortens` | messageQueue.h:281-285 | Lowering the end id through EndWrite only cuts the written ids short. |
| `MessageQueues.MessageQueue.constructor` | messageQueue.h:139-167 | The constructor asserts a legal kind. It builds a pool of `bufferCount * 1.1` buffers and empty queues, with all ids and counters at 0. |
| `MessageQueues.MessageQueue.IsFull` | messageQueue.h:90-92 | Full exactly when `bufferCount` enqueued messages are waiting. |
| `MessageQueues.MessageQueue.IsEmpty` | messageQueue.h:93-95 | Empty exactly when every enqueued message was popped. |
| `MessageQueues.MessageQueue.SynchronizedAppend` | messageQueue.h:64-89 | Counts a scan start, with 32-bit wrap. Before the second scan start nothing changes. Afterwards the front pool buffer, filled with the samples, frequency and time and given the next id, is pushed at the front. |
| `MessageQueues.MessageQueue.Enqueue` | messageQueue.h:72-88 | The pooled message with the next id and the samples goes to the front, and the pool loses its front buffer. |
| `MessageQueues.MessageQueue.AppendSamples` | messageQueue.h:187-234 | Each overload asserts its kind and has SynchronizedAppend's whole contract: the 32-bit scan count, no change before the second scan start, and otherwise a new message with the next id, the front pool buffer's slot, the samples, the frequency and the time, pushed at the front. |
| `MessageQueues.MessageQueue.GetNextSamples` | messageQueue.h:236-254 | Returns nothing exactly when the queue is done and empty. Otherwise it pops the oldest message: the k-th popped is the k-th enqueued, with id k, now held by the caller. |
| `MessageQueues.MessageQueue.PopBack` | messageQueue.h:247-249 | `back()` and `pop_back()` yield the oldest message not yet popped. |
| `MessageQueues.MessageQueue.MessageProcessed` | messageQueue.h:256-270 | The message is retained at the front. When the retention buffer was full, its oldest message goes back to the pool. |
| `MessageQueues.MessageQueue.EvictOldest` | messageQueue.h:263-267 | The back of the retention buffer is removed and freed to the pool. |
| `MessageQueues.MessageQueue.Retain` | messageQueue.h:268-269 | A held message goes to the front of the retention buffer. |
| `MessageQueues.MessageQueue.BeginWrite` | messageQueue.h:272-279 | Sets the start id and an end id of 2^64 - 1. |
| `MessageQueues.MessageQueue.EndWrite` | messageQueue.h:281-285 | Sets the end id to the argument. |
| `MessageQueues.MessageQueue.SetIsDone` | messageQueue.h:287-301 | Asserts it runs once, then marks the queue done. |
| `MessageQueues.MessageQueue.WriteThreadWorker` | messageQueue.h:96-137 | One wake-up writes nothing when the queue is done. Otherwise it writes what `WriteSelection` selects from the retention buffer between the start and end ids. |
| `MessageQueues.FindStart` | messageQueue.h:107-112 | The loop finds one past the index of the oldest retained message with the start id, or 0. |
| `MessageQueues.WriteWalk` | messageQueue.h:113-134 | The loop writes and closes exactly as `WriteFrom` says. |
| `SampleBuffers.FindFirst` | sampleBuffer.cpp:68-72 | `find_if` finds the first entry with the id. |
| `SampleBuffers.SampleBuffer.constructor` | sampleBuffer.cpp:7-19 | The constructor asserts a legal kind. It builds a ring of 16 blocks of 8192 * 16 elements and a staging block, and starts empty and not done. |
| `SampleBuffers.SampleBuffer.IsFull` | sampleBuffer.cpp:53-57 | Full exactly when a ring's worth of blocks is unread. |
| `SampleBuffers.SampleBuffer.IsEmpty` | sampleBuffer.cpp:61-64 | Empty exactly when every appended block has been read. |
| `SampleBuffers.SampleBuffer.GetCenterFrequency` | sampleBuffer.cpp:66-75 | Returns the frequency of an entry with the id. The assertion that one exists is a precondition. |
| `SampleBuffers.SampleBuffer.CenterFrequencyOfBlock` | sampleBuffer.cpp:23-27 | The entry AppendHelper recorded for block `i` is found at the block's first id and gives that block's frequency. |
| `SampleBuffers.SampleBuffer.AppendHelper` | sampleBuffer.cpp:23-27 | Records the end id, where the next block starts, with its frequency. |
| `SampleBuffers.SampleBuffer.SynchronizedAppend` | sampleBuffer.cpp:77-88 | Once the buffer is not full, the staging block becomes the newest block, with the frequency just recorded. |
| `SampleBuffers.SampleBuffer.AppendShortSamples` | sampleBuffer.cpp:90-103 | Asserts the kind, then appends the converted block with its frequency. |
| `SampleBuffers.SampleBuffer.AppendShortComplexSamples` | sampleBuffer.cpp:105-116 | Asserts the kind, then appends the converted block with its frequency. |
| `SampleBuffers.SampleBuffer.Stage` | sampleBuffer.cpp:96-101 | The conversion leaves the converted block in `m_floatComplex`. |
| `SampleBuffers.SampleBuffer.AppendFloatComplexSamples` | sampleBuffer.cpp:118-124 | Asserts the kind, then appends the staging block as it stands. Its argument is not read. |
| `SampleBuffers.SampleBuffer.GetNextSamples` | sampleBuffer.cpp:126-151 | Returns false exactly when the buffer is done and every block was read, and then changes nothing. Otherwise it copies the oldest unread block to the output, returns that block's frequency and moves past it. |
| `SampleBuffers.SampleBuffer.ReadBlock` | sampleBuffer.cpp:139-146 | Copies the oldest unread block out, returns its recorded frequency and advances the cursor by one block. |
| `SampleBuffers.SampleBuffer.CopyBlock` | sampleBuffer.cpp:140-144 | The copy sink gets exactly `sampleCount` samples, as the source asserts, and they are the oldest unread block. |
| `SampleBuffers.SampleBuffer.ReadWindow` | sampleBuffer.cpp:141-144 | The oldest unread block is still in the ring and ends by its end, so the read is not trimmed. |
| `SampleBuffers.SampleBuffer.SetIsDone` | sampleBuffer.cpp:36-42 | Asserts it runs once, then marks the buffer done. |
| `SignalSources.FrequencyCountCovers` | signalSource.cpp:27 | `ceil((stop - start) / rate)` bands of `rate` reach the stop frequency, and one fewer would not. |
| `SignalSources.FrequencyInBand` | signalSource.cpp:27-32 | Where `i * rate` does not wrap, entry `i` lies in band `i`, which starts below the stop frequency. |
| `SignalSources.AdvanceNClosedForm` | signalSource.cpp:43-53 | After `k` steps the index is `(index + k) mod size`. The count has gone down once per wrap, stopping at 0. |
| `SignalSources.SignalSource.constructor` | signalSource.cpp:8-33 | The list has `ceil((stop - start) / rate)` entries: `start + (i * rate mod 2^32) + rate / 2`. Indices and counters start at 0. |
| `SignalSources.SignalSource.SetIterationCount` | airspySource.cpp:243-245 | Sets the number of scans to make. |
| `SignalSources.SignalSource.GetNextFrequency` | signalSource.cpp:43-53 | Advances to the next entry with wrap-around and counts down a scan at each wrap, not below 0. Returns the new entry. |
| `SignalSources.SignalSource.AddRetuneTime` | signalSource.cpp:122-127 | With timing on and room left, records the time at the next index. Otherwise it changes nothing. |
| `SignalSources.SignalSource.AddGetSamplesTime` | signalSource.cpp:129-134 | With timing on and room left, records the time at the next index. Otherwise it changes nothing. |
| `FrequencyTables.CountIsCeiling` | frequencyTable.cpp:15-21 | The count the first loop stops at is `max(0, ceil((stop - f1) / (0.35 * rate)))`. It equals the asserted ceiling exactly when `stop > f1 - 0.35 * rate`. |
| `FrequencyTables.EntriesIncrease` | frequencyTable.cpp:22-28 | Entries grow with their index. |
| `FrequencyTables.AdvanceNClosedForm` | frequencyTable.cpp:31-39 | After `k` steps the index is `(index + k) mod size`. The count has gone up once per wrap, in 32 bits. |
| `FrequencyTables.ScanStartIffCounted` | frequencyTable.cpp:31-39 | A step lands on index 0 exactly when it changes the iteration count. |
| `FrequencyTables.FrequencyTable.constructor` | frequencyTable.cpp:9-29 | The table has the count the first loop finds. Entry `i` is `f1 + i * 0.40 * rate` with no info. Index and count start at 0. |
| `FrequencyTables.FrequencyTable.GetNextFrequency` | frequencyTable.cpp:31-39 | Moves to the next entry, or wraps to 0 and counts a scan in 32 bits. Returns the entry's frequency and writes its info through `pinfo`. |
| `FrequencyTables.FrequencyTable.GetCurrentFrequency` | frequencyTable.cpp:41-48 | Returns the current entry's frequency, and writes its info through `pinfo` when that is not null. |
| `FrequencyTables.FrequencyTable.SetFrequencyInfoForIndex` | frequencyTable.cpp:62-67 | Replaces only that entry's info. Every other entry and every frequency stay as they were. |
| `ArgumentParsing.FindFirstNotOf` | arguments.cpp:14 | The first position at or after `from` not holding a delimiter, or `npos` when there is none. |
| `ArgumentParsing.FindFirstOf` | arguments.cpp:16 | The first position at or after `from` holding a delimiter, or `npos` when there is none. |
| `ArgumentParsing.Tokens` | arguments.cpp:11-35 | Every token is non-empty and free of delimiters. |
| `ArgumentParsing.TokensOfJoin` | arguments.cpp:11-35 | Well-formed tokens joined by a space or a comma split back into exactly those tokens. |
| `ArgumentParsing.Split` | arguments.cpp:24-29 | The name holds no `=`. Name, `=` and value put back together give the token. Without an `=`, the value is empty. |
| `ArgumentParsing.FirstWins` | arguments.cpp:30 | Because `insert` keeps an existing entry, the map holds a name exactly when some token has it, with the first such token's value. |
| `ArgumentParsing.ParseShow` | arguments.cpp:66 | A signed `int` written in decimal, followed by any non-digit, parses back to itself. |
| `ArgumentParsing.StoiShow` | arguments.cpp:66 | `std::stoi` reads back what `std::to_string` writes, with any leading white space and any trailing non-digit. |
| `ArgumentParsing.Arguments.constructor` | arguments.cpp:7-36 | The scan visits exactly the tokens of the string, in order, and the map is built from them first-wins. |
| `ArgumentParsing.Arguments.Has` | arguments.cpp:38-44 | True exactly when some token carries the name. |
| `ArgumentParsing.Arguments.HasValue` | arguments.cpp:46-53 | True exactly when the first token with the name gives it a non-empty value. |
| `ArgumentParsing.Arguments.GetStringValue` | arguments.cpp:55-60 | The value of the first token with the name. Its presence, which the source asserts, is a precondition. |
| `ArgumentParsing.Arguments.GetIntValue` | arguments.cpp:62-67 | `std::stoi` of that value. Its exceptions, `invalid_argument` and `out_of_range`, are results. |

## Left out

- Threads, mutexes and condition variables. Each wait is a precondition that the awaited state holds. The notifications are not modelled.
- File and console I/O is not modelled. This covers `fopen`, `fwrite` and `fclose`, `printf`, the `FrequencyTable` constructor's printout, `SampleBuffer::WriteSamplesToFile`, `SignalSource::WriteTimingData`, and the output file the `CircularBuffer` constructor may open. The file sink's file is the sequence of items written. The writer's file is the sequence of ids it writes.
- The sample conversions (`Utility::short_complex_to_float_complex`, `byte_complex_to_float_complex`, ENOB scaling, DC correction) are not modelled. The caller passes the converted block.
- The clock is not modelled. `StartTimer` and `StopTimer` are left out, and `AddRetuneTime` and `AddGetSamplesTime` take the elapsed time as a parameter.
- `s_maxIndex` is a constructor parameter of `SignalSource`: its declaration is not part of this model.
- The hardware sources are not modelled beyond the one line each uses to set the scan count (`SetIterationCount`). This covers their `Start`, `Stop`, `Retune` and `ThreadWorker`, and `SignalSource::StartThread`, `StopThread` and `StopStreaming`.
- Doubles are exact reals: rounding is not modelled. `uint32_t(bufferCount * 1.1)` is `bufferCount * 11 / 10`. `ceil` on a double is the exact ceiling.
- Buffers passed by address are values. A pool buffer's `slot` stands for its address. Aliasing between the queue, the caller and the pool is tracked as slot ownership and is not shared mutable memory.
- The destructors of `MessageQueue`, `MemoryPool` and `CircularBuffer` are not modelled as methods. The pool's assertion is stated by `MemoryPool.AllReturned`.
- `uint64_t` sequence ids and element counts are unbounded; they do not wrap. `uint32_t` wrap-around is modelled where it matters: `m_iterationCount` in `MessageQueue` and `FrequencyTable`, and the product `i * sampleRate` in `SignalSource`.
- `CircularBuffers.CircularBuffer.ProcessItems` requires that the read starts at an id the ring still holds and ends by the ring's end. Otherwise the source's loop stops making progress or reads overwritten slots.
- `SampleBuffers.SampleBuffer.constructor` requires the block size to divide the ring's capacity. Otherwise an append could wrap over unread samples and break the block-per-read view.
- `MemoryPools.MemoryPool.Free` requires that the buffer is out of the pool. The source does not check this.
- `FrequencyTables.FrequencyTable.constructor` requires that the count fits in 32 bits. With a `uint32_t` count, a longer range never leaves the first loop. It does not require the source's assertion; `CountIsCeiling` states when that assertion holds.
- `MessageQueues.MessageQueue.MessageProcessed` requires `bufferCount / 10 > 0`. With a retention capacity of 0, the source calls `back()` on an empty buffer.
- `MessageQueues.MessageQueue.WriteThreadWorker` is one wake-up of the thread, up to the point where it would wait. The outer loop and the waits between wake-ups are not modelled. So the writes that follow a wait are not modelled either, including those through the stale iterator when the start id was not found (see "Latent behaviours").
- `CircularBuffers.CircularBuffer.AppendItems` returns nothing. The source declares a `bool` result but never returns one.
- `RingGeometry.Minus` returns what the source returns, `*this + (capacity - count)`. The backward walk the source computes and discards is not modelled.
- `ArgumentParsing.Stoi` models `std::stoi` in base 10 on the C locale.
- Several source functions are split into smaller methods to keep each proof small:
  - ProcessItems into ReadRound, ProcessBlocks and ProcessBlock;
  - SampleBuffer::GetNextSamples into ReadBlock and CopyBlock;
  - MessageQueue::SynchronizedAppend into Enqueue;
  - MessageQueue::GetNextSamples into PopBack;
  - MessageProcessed into EvictOldest and Retain;
  - WriteThreadWorker into FindStart and WriteWalk.

## Latent behaviours

These follow from the code as written and are reflected in the model.

- The `fftwf_complex *` overload of `SampleBuffer::AppendSamples` (sampleBuffer.cpp:118-124) never reads its argument. It appends whatever `m_floatComplex` holds: `AppendFloatComplexSamples`.
- `SampleBuffer::m_queue` gains an entry per append and is never trimmed.
- The message-queue writer searches for the start id once per wake-up. When no retained message has it (or it has not arrived yet), the writer never searches again. Its reverse iterator stays at the old `rend()` of `m_writeBuffer`, a `boost::circular_buffer` (messageQueue.h:40, 108-121). The next `push_front` in `MessageProcessed` (messageQueue.h:268) turns that iterator into the newly retained message. From then on the writer writes each newly retained message whose id is below the end id, whatever that id is, so the file holds the wrong messages. `WriteSelection` models the first wake-up only, where nothing is written. The later writes are not modelled (see `WriteThreadWorker` under "Left out").
- AddRequest pushes a request even for an empty read. With no earlier request, or none reaching the start id, a read of 0 items records `(sequenceId, 0)`. This happens when ProcessItems is asked for items of an empty ring with the file sink: `AddedRequest`.
- `EndWrite` replaces the end id whether it is earlier or later. A lower end id only cuts the written ids short: `EndWriteShortens`.
- `SignalSource::GetNextFrequency` takes the index modulo the list size. An empty list is a division by zero, so the model requires a non-empty list.
- The message queue's retention capacity `bufferCount / 10` is 0 for fewer than 10 buffers. `MessageProcessed` then reads `back()` of an empty buffer.
- `m_iterationCount` in `FrequencyTable` and in `MessageQueue` is `uint32_t` and wraps after 2^32 scan starts. In `MessageQueue` a wrap to 0 or 1 makes appends be dropped again.
- AddRequest trims a merging read to start where the newest request ended, but ProcessItems then reads from the original id. The file sink receives the first `count` items from `sequenceId`, not the trimmed range: `ProcessItems`.
- An append that overflows the ring sets the begin iterator to the end, after which the ring reports full: `UpdateBufferEnd`.
- The `FrequencyTable` constructor counts entries 0.35 sample rates apart but places them 0.40 apart. The last entries can lie past the stop frequency. For example, with rate 1, start 0 and stop 3, the count is 8 and entry 7 is 3.175: `CountIsCeiling` and the constructor's contract.
- The `FrequencyTable` constructor's assertion fails when `stop <= f1 - 0.35 * rate`. The loop finds 0 entries, but the ceiling is negative: `CountIsCeiling`.
- `FrequencyTable::GetNextFrequency` on an empty table reads `m_table[0]`, so the model requires a non-empty table.
- `Arguments::GetIntValue` on a name given without a value calls `std::stoi("")`, which throws `invalid_argument`: `GetIntValue`.
