/** `MessageQueue<T>` (messageQueue.h): the sample thread's appends become
    pooled messages with consecutive sequence ids in a bounded queue the
    processing thread pops oldest first; processed messages go to a short
    retention buffer the write thread copies to a file between a start id
    and an end id. Messages are values (see MemoryPools); waits on the
    condition variables are preconditions, and the write thread's file is
    the sequence of ids it writes. */
module MessageQueues {
  import opened Wrappers
  import opened MemoryPools

  /** `m_iterationCount` is a `uint32_t`. */
  const UInt32Modulus: nat := 0x1_0000_0000
  /** `std::numeric_limits<uint64_t>::max()`, BeginWrite's end id. */
  const UInt64Max: nat := 0xFFFF_FFFF_FFFF_FFFF

  /** `MessageHeader::MessageKind`. */
  datatype MessageKind = Illegal | ProcessData | WriteData | WriteDataAndStop | Free

  /** `MessageHeader`; `time` is the `time_t` the append was given. */
  datatype MessageHeader = MessageHeader(kind: MessageKind, referenceCount: nat, frequency: real, sequenceId: nat, time: int)

  /** `MessageQueue::SampleKind`; `Illegal` is refused by the constructor. */
  datatype SampleKind = Illegal | ByteComplex | Short | ShortComplex | FloatComplex

  /** `MessageType`: a pooled buffer of the queue's header and samples. */
  type Message<T> = Buffer<MessageHeader, T>

  /** `m_iterationCount` after an append at `time`: a nonzero time marks the
      start of a scan and is counted, with 32-bit wrap-around. */
  function NextIteration(iterationCount: nat, time: int): nat {
    if time != 0 then (iterationCount + 1) % UInt32Modulus else iterationCount
  }

  /** The counter after appends at `times`, from `iterationCount`. */
  function Iterations(iterationCount: nat, times: seq<int>): nat {
    if times == [] then iterationCount
    else NextIteration(Iterations(iterationCount, times[..|times| - 1]), times[|times| - 1])
  }

  /** How many of `times` are scan starts. */
  function ScanStarts(times: seq<int>): nat {
    if times == [] then 0
    else ScanStarts(times[..|times| - 1]) + (if times[|times| - 1] != 0 then 1 else 0)
  }

  /** From a fresh queue, and short of 2^32 scan starts, the counter is the
      number of scan starts seen, so an append is kept exactly when it comes
      at or after the second scan start: everything before is dropped. */
  lemma {:induction false} IterationsCountScanStarts(times: seq<int>)
    requires ScanStarts(times) < UInt32Modulus
    ensures Iterations(0, times) == ScanStarts(times)
    ensures Iterations(0, times) >= 2 <==> ScanStarts(times) >= 2
  {
    if times != [] {
      IterationsCountScanStarts(times[..|times| - 1]);
    }
  }

  /** `std::find_if` from `rbegin()` over the first `n` retained messages
      (front first, so the search runs from the oldest): the index of the
      oldest message with the id. */
  function FindFromBack<T>(retained: seq<Message<T>>, n: nat, sequenceId: nat): (r: Option<nat>)
    requires n <= |retained|
    ensures r.Some? ==> r.value < n && retained[r.value].header.sequenceId == sequenceId
    ensures r.Some? ==> forall j :: r.value < j < n ==> retained[j].header.sequenceId != sequenceId
    ensures r.None? ==> forall j :: 0 <= j < n ==> retained[j].header.sequenceId != sequenceId
  {
    if n == 0 then None
    else if retained[n - 1].header.sequenceId == sequenceId then Some(n - 1)
    else FindFromBack(retained, n - 1, sequenceId)
  }

  /** The writer's walk from `retained[n - 1]` toward the front: the ids it
      writes, and whether it reached a message at or past the end id and
      closed the file. It writes each message below the end id in turn and
      stops at the first one that is not. */
  function WriteFrom<T>(retained: seq<Message<T>>, n: nat, end: nat): (r: (seq<nat>, bool))
    requires n <= |retained|
    ensures |r.0| <= n
    ensures forall i :: 0 <= i < |r.0| ==> r.0[i] == retained[n - 1 - i].header.sequenceId && r.0[i] < end
    ensures r.1 <==> |r.0| < n
    ensures r.1 ==> retained[n - 1 - |r.0|].header.sequenceId >= end
  {
    if n == 0 then ([], false)
    else if retained[n - 1].header.sequenceId < end then
      var rest := WriteFrom(retained, n - 1, end);
      ([retained[n - 1].header.sequenceId] + rest.0, rest.1)
    else ([], true)
  }

  /** One wake-up of the write thread over the retention buffer: from the
      oldest message with the start id, the ids written and whether the file
      was closed. When no retained message has the start id, nothing is
      written in this wake-up, and the search is not repeated: the reverse
      iterator stays at the old `rend()` of the `boost::circular_buffer`,
      which the next `push_front` of MessageProcessed turns into the newly
      retained message, so from then on each newly retained message below
      the end id is written, whatever its id. Those later writes are not
      part of this function. */
  function WriteSelection<T>(retained: seq<Message<T>>, start: nat, end: nat): (r: (seq<nat>, bool))
    ensures (forall j :: 0 <= j < |retained| ==> retained[j].header.sequenceId != start) ==> r == ([], false)
    ensures r.0 != [] ==> r.0[0] == start
    ensures forall i :: 0 <= i < |r.0| ==> r.0[i] < end
  {
    match FindFromBack(retained, |retained|, start)
    case None => ([], false)
    case Some(k) => WriteFrom(retained, k + 1, end)
  }

  /** Lowering the end id (EndWrite after BeginWrite) can only cut the
      written ids short: what is written is a prefix of what a later end
      would write. */
  lemma {:induction false} WriteFromShortens<T>(retained: seq<Message<T>>, n: nat, end1: nat, end2: nat)
    requires n <= |retained| && end1 <= end2
    ensures WriteFrom(retained, n, end1).0 <= WriteFrom(retained, n, end2).0
  {
    if n > 0 && retained[n - 1].header.sequenceId < end1 {
      WriteFromShortens(retained, n - 1, end1, end2);
    }
  }

  lemma EndWriteShortens<T>(retained: seq<Message<T>>, start: nat, end1: nat, end2: nat)
    requires end1 <= end2
    ensures WriteSelection(retained, start, end1).0 <= WriteSelection(retained, start, end2).0
  {
    match FindFromBack(retained, |retained|, start)
    case None =>
    case Some(k) => WriteFromShortens(retained, k + 1, end1, end2);
  }

  /** The messages enqueued so far carry the ids 0, 1, ... in order, as
      data to process. */
  ghost predicate Numbered<T>(accepted: seq<Message<T>>) {
    forall k :: 0 <= k < |accepted| ==> accepted[k].header.sequenceId == k && accepted[k].header.kind == ProcessData
  }

  /** `queue` (front first) holds the enqueued messages from the
      `delivered`-th on, newest at the front. */
  ghost predicate Queued<T>(queue: seq<Message<T>>, accepted: seq<Message<T>>, delivered: nat) {
    && delivered <= |accepted| && |queue| == |accepted| - delivered
    && forall i :: 0 <= i < |queue| ==> queue[i] == accepted[|accepted| - 1 - i]
  }

  /** Pushing the newest message at the front keeps the queue in order. */
  lemma QueuedPush<T>(queue: seq<Message<T>>, accepted: seq<Message<T>>, delivered: nat, message: Message<T>)
    requires Queued(queue, accepted, delivered)
    ensures Queued([message] + queue, accepted + [message], delivered)
  {
  }

  /** Popping the back yields the oldest message not yet popped. */
  lemma QueuedPop<T>(queue: seq<Message<T>>, accepted: seq<Message<T>>, delivered: nat)
    requires Queued(queue, accepted, delivered) && |queue| > 0
    ensures queue[|queue| - 1] == accepted[delivered]
    ensures Queued(queue[..|queue| - 1], accepted, delivered + 1)
  {
  }

  /** A message taken from the pool and pushed keeps the lists within
      the pool's buffers that are out. */
  lemma OwnedPush<T>(queue: seq<Message<T>>, other: seq<Message<T>>, outstanding: multiset<nat>, message: Message<T>)
    requires multiset(Slots(queue)) + multiset(Slots(other)) <= outstanding
    ensures multiset(Slots([message] + queue)) + multiset(Slots(other)) <= outstanding + multiset{message.slot}
  {
    assert Slots([message] + queue) == [message.slot] + Slots(queue);
  }

  /** Taking the back of `queue` leaves a message that is out of the pool
      and in neither list any more. */
  lemma OwnedPop<T>(queue: seq<Message<T>>, other: seq<Message<T>>, outstanding: multiset<nat>)
    requires multiset(Slots(queue)) + multiset(Slots(other)) <= outstanding && |queue| > 0
    ensures multiset(Slots(queue[..|queue| - 1])) + multiset(Slots(other)) <= outstanding
    ensures queue[|queue| - 1].slot in outstanding - multiset(Slots(queue[..|queue| - 1])) - multiset(Slots(other))
  {
    var last := |queue| - 1;
    assert Slots(queue) == Slots(queue[..last]) + [queue[last].slot];
  }

  /** Returning the oldest retained message to the pool keeps every other
      queued or retained message, and a held one, out of the pool. */
  lemma EvictSlots<T>(queue: seq<Message<T>>, retained: seq<Message<T>>, outstanding: multiset<nat>, message: Message<T>)
    requires multiset(Slots(queue)) + multiset(Slots(retained)) <= outstanding && |retained| > 0
    requires message.slot in outstanding - multiset(Slots(queue)) - multiset(Slots(retained))
    ensures retained[|retained| - 1].slot in outstanding
    ensures var rest := retained[..|retained| - 1];
            var out := outstanding - multiset{retained[|retained| - 1].slot};
            multiset(Slots(queue)) + multiset(Slots(rest)) <= out &&
            message.slot in out - multiset(Slots(queue)) - multiset(Slots(rest))
  {
    var last := |retained| - 1;
    assert Slots(retained) == Slots(retained[..last]) + [retained[last].slot];
  }

  /** Retaining a held message keeps the retained messages out of the
      pool. */
  lemma RetainSlots<T>(queue: seq<Message<T>>, retained: seq<Message<T>>, outstanding: multiset<nat>, message: Message<T>)
    requires multiset(Slots(queue)) + multiset(Slots(retained)) <= outstanding
    requires message.slot in outstanding - multiset(Slots(queue)) - multiset(Slots(retained))
    ensures multiset(Slots(queue)) + multiset(Slots([message] + retained)) <= outstanding
  {
    assert Slots([message] + retained) == [message.slot] + Slots(retained);
  }

  class MessageQueue<T(0)> {
    const kind: SampleKind
    /** `m_enob` and `m_correctDCOffset`: passed to the sample conversion,
        which is not modelled. */
    const enob: nat
    const correctDCOffset: bool
    const sampleCount: nat
    const bufferCount: nat
    const doWrite: bool
    /** `m_memoryPool`, of `uint32_t(bufferCount * 1.1)` buffers. */
    const pool: MemoryPool<MessageHeader, T>
    /** `m_buffer` and `m_writeBuffer`, front first: `push_front` puts the
        newest message at index 0 and `pop_back` takes the last. */
    var buffer: seq<Message<T>>
    var writeBuffer: seq<Message<T>>
    var writeStartSequenceId: nat
    var writeEndSequenceId: nat
    var iterationCount: nat
    var nextBufferSequenceId: nat
    var done: bool
    /** Every message enqueued, by sequence id, and how many were popped. */
    ghost var accepted: seq<Message<T>>
    ghost var delivered: nat

    /** The queue holds the enqueued messages not yet popped, newest at the
        front, each with its sequence id; ids are consecutive from 0; at
        most `bufferCount` messages are queued and `bufferCount / 10`
        retained, and every queued or retained message is out of the pool. */
    ghost predicate Valid()
      reads this, pool
    {
      && PoolFits() && Sequenced() && Owned()
      && iterationCount < UInt32Modulus && |writeBuffer| <= bufferCount / 10
    }

    /** The pool has `bufferCount * 1.1` buffers of `sampleCount` samples. */
    ghost predicate PoolFits()
      reads pool
    {
      pool.Valid() && pool.bufferSize == sampleCount && pool.bufferCount == bufferCount * 11 / 10
    }

    /** The queue holds the enqueued messages not yet popped, at most
        `bufferCount` of them, and the next id is the number enqueued. */
    ghost predicate Sequenced()
      reads this`buffer, this`accepted, this`delivered, this`nextBufferSequenceId
    {
      && |accepted| == nextBufferSequenceId && Numbered(accepted)
      && Queued(buffer, accepted, delivered) && |buffer| <= bufferCount
    }

    /** Every queued or retained message is out of the pool, once. */
    ghost predicate Owned()
      reads this`buffer, this`writeBuffer, pool`outstanding
    {
      multiset(Slots(buffer)) + multiset(Slots(writeBuffer)) <= pool.outstanding
    }

    /** A message the processing thread holds: out of the pool, and neither
        queued nor retained. */
    ghost predicate Held(message: Message<T>)
      reads this, pool
    {
      message.slot in pool.outstanding - multiset(Slots(buffer)) - multiset(Slots(writeBuffer))
    }

    /** The constructor asserts a legal kind and builds a pool of
        `bufferCount * 1.1` buffers of `sampleCount` samples. */
    constructor (kind: SampleKind, enob: nat, sampleCount: nat, bufferCount: nat, correctDCOffset: bool, doWrite: bool)
      requires kind != SampleKind.Illegal
      ensures Valid() && fresh(pool)
      ensures this.kind == kind && this.sampleCount == sampleCount && this.bufferCount == bufferCount
      ensures buffer == [] && writeBuffer == [] && nextBufferSequenceId == 0 && iterationCount == 0 && !done
      ensures writeStartSequenceId == 0 && writeEndSequenceId == 0
    {
      this.kind := kind;
      this.enob := enob;
      this.correctDCOffset := correctDCOffset;
      this.sampleCount := sampleCount;
      this.bufferCount := bufferCount;
      this.doWrite := doWrite;
      pool := new MemoryPool(sampleCount, bufferCount * 11 / 10);
      buffer := [];
      writeBuffer := [];
      writeStartSequenceId := 0;
      writeEndSequenceId := 0;
      iterationCount := 0;
      nextBufferSequenceId := 0;
      done := false;
      accepted := [];
      delivered := 0;
    }

    /** IsFull: `bufferCount` enqueued messages are waiting to be popped. */
    function IsFull(): (r: bool)
      reads this, pool
      requires Valid()
      ensures r <==> nextBufferSequenceId - delivered == bufferCount
    {
      |buffer| == bufferCount
    }

    /** IsEmpty: every enqueued message has been popped. */
    function IsEmpty(): (r: bool)
      reads this, pool
      requires Valid()
      ensures r <==> delivered == nextBufferSequenceId
    {
      |buffer| == 0
    }

    function GetIsDone(): bool
      reads this
    {
      done
    }

    /** SynchronizedAppend: count a scan start; before the second one, drop
        the samples. Otherwise take a buffer from the pool (a wait), fill it
        with the samples, the time, the frequency and the next sequence id,
        and once the queue is not full (a wait) push it at the front. */
    method SynchronizedAppend(samples: seq<T>, centerFrequency: real, time: int)
      requires Valid() && |samples| == sampleCount
      requires NextIteration(iterationCount, time) >= 2 ==> |pool.free| > 0 && !IsFull()
      modifies this`iterationCount, this`nextBufferSequenceId, this`buffer, this`accepted, pool
      ensures Valid()
      ensures iterationCount == NextIteration(old(iterationCount), time)
      ensures iterationCount < 2 ==>
                nextBufferSequenceId == old(nextBufferSequenceId) && buffer == old(buffer) &&
                accepted == old(accepted) && pool.free == old(pool.free)
      ensures iterationCount >= 2 ==>
                nextBufferSequenceId == old(nextBufferSequenceId) + 1 && |accepted| == nextBufferSequenceId &&
                accepted == old(accepted) + [accepted[old(nextBufferSequenceId)]] &&
                buffer == [accepted[old(nextBufferSequenceId)]] + old(buffer) &&
                pool.free == old(pool.free[1..])
      ensures iterationCount >= 2 ==>
                var message := accepted[old(nextBufferSequenceId)];
                message.slot == old(pool.free[0].slot) && message.data == samples &&
                message.header.frequency == centerFrequency && message.header.time == time
    {
      if time != 0 {
        iterationCount := (iterationCount + 1) % UInt32Modulus;
      }
      if iterationCount < 2 {
        return;
      }
      Enqueue(samples, centerFrequency, time);
    }

    /** The part of SynchronizedAppend past the scan-start gate: a pooled
        buffer with the samples and the next id goes to the front. */
    method Enqueue(samples: seq<T>, centerFrequency: real, time: int)
      requires Valid() && |samples| == sampleCount && |pool.free| > 0 && !IsFull()
      modifies this`nextBufferSequenceId, this`buffer, this`accepted, pool
      ensures Valid()
      ensures nextBufferSequenceId == old(nextBufferSequenceId) + 1 && |accepted| == nextBufferSequenceId
      ensures accepted == old(accepted) + [accepted[old(nextBufferSequenceId)]]
      ensures buffer == [accepted[old(nextBufferSequenceId)]] + old(buffer)
      ensures pool.free == old(pool.free[1..])
      ensures var message := accepted[old(nextBufferSequenceId)];
              message.slot == old(pool.free[0].slot) && message.data == samples &&
              message.header.frequency == centerFrequency && message.header.time == time
    {
      var message := pool.Allocate();
      var header := message.header.(time := time, frequency := centerFrequency, kind := ProcessData,
                                    sequenceId := nextBufferSequenceId);
      message := message.(header := header, data := samples);
      QueuedPush(buffer, accepted, delivered, message);
      OwnedPush(buffer, writeBuffer, old(pool.outstanding), message);
      nextBufferSequenceId := nextBufferSequenceId + 1;
      accepted := accepted + [message];
      buffer := [message] + buffer;
    }

    /** The four AppendSamples overloads: each asserts that the queue holds
        its kind of samples. The 8- and 16-bit overloads convert into
        `m_floatComplex` first; that conversion is not modelled, so the
        caller passes the converted samples. The float overload passes its
        own argument. */
    method AppendSamples(inputKind: SampleKind, samples: seq<T>, centerFrequency: real, time: int)
      requires Valid() && inputKind == kind && |samples| == sampleCount
      requires NextIteration(iterationCount, time) >= 2 ==> |pool.free| > 0 && !IsFull()
      modifies this`iterationCount, this`nextBufferSequenceId, this`buffer, this`accepted, pool
      ensures Valid()
      ensures iterationCount == NextIteration(old(iterationCount), time)
      ensures iterationCount < 2 ==>
                nextBufferSequenceId == old(nextBufferSequenceId) && buffer == old(buffer) &&
                accepted == old(accepted) && pool.free == old(pool.free)
      ensures iterationCount >= 2 ==>
                nextBufferSequenceId == old(nextBufferSequenceId) + 1 && |accepted| == nextBufferSequenceId &&
                accepted == old(accepted) + [accepted[old(nextBufferSequenceId)]] &&
                buffer == [accepted[old(nextBufferSequenceId)]] + old(buffer) &&
                pool.free == old(pool.free[1..])
      ensures iterationCount >= 2 ==>
                var message := accepted[old(nextBufferSequenceId)];
                message.slot == old(pool.free[0].slot) && message.data == samples &&
                message.header.frequency == centerFrequency && message.header.time == time
    {
      SynchronizedAppend(samples, centerFrequency, time);
    }

    /** GetNextSamples: once the queue is done or not empty (the wait),
        return nothing if it is done and empty; otherwise pop the back, the
        oldest message, which the caller then holds. The k-th message popped
        is the k-th enqueued, with sequence id k. */
    method GetNextSamples() returns (message: Option<Message<T>>)
      requires Valid() && (done || !IsEmpty())
      modifies this`buffer, this`delivered
      ensures Valid()
      ensures message.None? <==> old(done && IsEmpty())
      ensures message.None? ==> buffer == old(buffer) && delivered == old(delivered)
      ensures message.Some? ==>
                message.value == accepted[old(delivered)] && message.value.header.sequenceId == old(delivered) &&
                delivered == old(delivered) + 1 && buffer == old(buffer[..|buffer| - 1]) &&
                Held(message.value)
    {
      if GetIsDone() {
        if IsEmpty() {
          return None;
        }
      }
      var oldest := PopBack();
      message := Some(oldest);
    }

    /** `back()` and `pop_back()` on a queue that is not empty. */
    method PopBack() returns (message: Message<T>)
      requires Valid() && !IsEmpty()
      modifies this`buffer, this`delivered
      ensures Valid()
      ensures message == accepted[old(delivered)] && message.header.sequenceId == old(delivered)
      ensures delivered == old(delivered) + 1 && buffer == old(buffer[..|buffer| - 1])
      ensures Held(message)
    {
      var last := |buffer| - 1;
      message := buffer[last];
      QueuedPop(buffer, accepted, delivered);
      OwnedPop(buffer, writeBuffer, pool.outstanding);
      buffer := buffer[..last];
      delivered := delivered + 1;
    }

    /** MessageProcessed: the caller hands back a message it holds. When
        the retention buffer is full, its oldest message goes back to the
        pool; the message is then retained at the front. The source calls
        `back()` on a full buffer, so the buffer must have room for one. */
    method MessageProcessed(message: Message<T>)
      requires Valid() && message.header.kind != MessageKind.Illegal && Held(message)
      requires bufferCount / 10 > 0
      modifies this`writeBuffer, pool
      ensures Valid()
      ensures old(|writeBuffer|) < bufferCount / 10 ==>
                writeBuffer == [message] + old(writeBuffer) && pool.free == old(pool.free)
      ensures old(|writeBuffer|) == bufferCount / 10 ==>
                writeBuffer == [message] + old(writeBuffer[..|writeBuffer| - 1]) &&
                pool.free == old(pool.free) + [old(writeBuffer[|writeBuffer| - 1])]
    {
      if |writeBuffer| == bufferCount / 10 {
        EvictOldest(message);
      }
      Retain(message);
    }

    /** The oldest retained message (the back) goes back to the pool. */
    method EvictOldest(message: Message<T>)
      requires Valid() && |writeBuffer| > 0 && Held(message)
      modifies this`writeBuffer, pool
      ensures Valid() && Held(message)
      ensures writeBuffer == old(writeBuffer[..|writeBuffer| - 1])
      ensures pool.free == old(pool.free) + [old(writeBuffer[|writeBuffer| - 1])]
    {
      var last := |writeBuffer| - 1;
      var evicted := writeBuffer[last];
      EvictSlots(buffer, writeBuffer, pool.outstanding, message);
      pool.Free(evicted);
      writeBuffer := writeBuffer[..last];
    }

    /** A held message is retained at the front. */
    method Retain(message: Message<T>)
      requires Valid() && |writeBuffer| < bufferCount / 10 && Held(message)
      modifies this`writeBuffer
      ensures Valid() && writeBuffer == [message] + old(writeBuffer)
    {
      RetainSlots(buffer, writeBuffer, pool.outstanding, message);
      writeBuffer := [message] + writeBuffer;
    }

    /** BeginWrite: the start id, and an end id no message reaches. Opening
        the file is not modelled. */
    method BeginWrite(startSequenceId: nat)
      modifies this`writeStartSequenceId, this`writeEndSequenceId
      ensures writeStartSequenceId == startSequenceId && writeEndSequenceId == UInt64Max
    {
      writeStartSequenceId := startSequenceId;
      writeEndSequenceId := UInt64Max;
    }

    /** EndWrite: the end id becomes the argument, earlier or later than
        the one it replaces. */
    method EndWrite(sequenceId: nat)
      modifies this`writeEndSequenceId
      ensures writeEndSequenceId == sequenceId
    {
      writeEndSequenceId := sequenceId;
    }

    /** SetIsDone asserts it is called once. */
    method SetIsDone()
      requires !done
      modifies this`done
      ensures done
    {
      done := true;
    }

    /** One wake-up of WriteThreadWorker: unless the queue is done, find the
        oldest retained message with the start id, then write messages
        toward the front while their ids are below the end id, and close
        the file at the first that is not. It stops where it would wait for
        more messages. */
    method WriteThreadWorker() returns (written: seq<nat>, closed: bool)
      ensures (written, closed) ==
              if done then ([], false) else WriteSelection(writeBuffer, writeStartSequenceId, writeEndSequenceId)
    {
      written, closed := [], false;
      if GetIsDone() {
        return;
      }
      var iter := FindStart(writeBuffer, writeStartSequenceId);
      if iter == 0 {
        return;
      }
      written, closed := WriteWalk(writeBuffer, iter, writeEndSequenceId);
    }
  }

  /** The writer's search: from the front, find the last message (the
      oldest) with the start id; the result is one past its index, or 0
      when there is none. */
  method FindStart<T>(retained: seq<Message<T>>, startSequenceId: nat) returns (iter: nat)
    ensures iter == match FindFromBack(retained, |retained|, startSequenceId)
                    case Some(k) => k + 1
                    case None => 0
  {
    iter := |retained|;
    while iter > 0 && retained[iter - 1].header.sequenceId != startSequenceId
      invariant iter <= |retained|
      invariant FindFromBack(retained, iter, startSequenceId) == FindFromBack(retained, |retained|, startSequenceId)
    {
      iter := iter - 1;
    }
    if iter > 0 {
      assert FindFromBack(retained, iter, startSequenceId) == Some(iter - 1);
    }
  }

  /** The writer's walk from `retained[iter - 1]` toward the front: write
      each id below the end id, and close at the first that is not. */
  method WriteWalk<T>(retained: seq<Message<T>>, iter: nat, end: nat) returns (written: seq<nat>, closed: bool)
    requires iter <= |retained|
    ensures (written, closed) == WriteFrom(retained, iter, end)
  {
    written, closed := [], false;
    ghost var whole := WriteFrom(retained, iter, end);
    var n: nat := iter;
    assert whole.0 == written + whole.0;
    while n > 0 && !closed
      invariant n <= iter
      invariant !closed ==> whole == (written + WriteFrom(retained, n, end).0, WriteFrom(retained, n, end).1)
      invariant closed ==> whole == (written, true)
    {
      var message := retained[n - 1];
      ghost var rest := WriteFrom(retained, n - 1, end);
      n := n - 1;
      if message.header.sequenceId < end {
        assert written + ([message.header.sequenceId] + rest.0) == (written + [message.header.sequenceId]) + rest.0;
        written := written + [message.header.sequenceId];
      } else {
        assert written + [] == written;
        closed := true;
      }
    }
    assert written + [] == written;
  }
}
