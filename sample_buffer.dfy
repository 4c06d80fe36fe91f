/** `SampleBuffer` (sampleBuffer.cpp): a bounded FIFO of fixed-size sample
    blocks between the sample thread and the processing thread. Every append
    records the block's first sequence id with its centre frequency and puts
    `sampleCount` converted samples into a ring of 16 blocks of 8192 * 16
    elements; every read copies the next `sampleCount` samples out and
    returns the frequency recorded for them. Waits on the condition
    variables are preconditions. */
module SampleBuffers {
  import opened Arith
  import opened RingGeometry
  import opened Sinks
  import opened CircularBuffers

  /** The ring the constructor builds: `m_circularBuffer(16, nullptr)` of
      the template's block size `8192*16`. */
  const RingBlockCount: nat := 16
  const RingBlockSize: nat := 8192 * 16
  const RingCapacity: nat := 16 * (8192 * 16)

  /** `SampleKind`; `Illegal` is refused by the constructor. */
  datatype SampleKind = Illegal | Short | ShortComplex | FloatComplex

  /** An entry of `m_queue`: the id of the first sample of an appended block
      and the centre frequency it was taken at. */
  datatype FrequencyMark = FrequencyMark(sequenceId: nat, centerFrequency: real)

  /** What one append put into the buffer, kept for the specification. */
  datatype Block<T> = Block(samples: seq<T>, centerFrequency: real)

  /** Every block holds `s` samples. */
  ghost predicate AllSized<T>(blocks: seq<Block<T>>, s: nat) {
    forall i :: 0 <= i < |blocks| ==> |blocks[i].samples| == s
  }

  /** The samples of `blocks` laid end to end, oldest first. */
  function Samples<T>(blocks: seq<Block<T>>): seq<T> {
    if |blocks| == 0 then [] else Samples(blocks[..|blocks| - 1]) + blocks[|blocks| - 1].samples
  }

  lemma SamplesAppend<T>(blocks: seq<Block<T>>, b: Block<T>)
    ensures Samples(blocks + [b]) == Samples(blocks) + b.samples
  {
    assert (blocks + [b])[..|blocks|] == blocks;
  }

  /** Block `i` of equal-sized blocks laid end to end occupies the ids
      `i * s .. i * s + s - 1`. */
  lemma {:induction false} SamplesBlock<T>(blocks: seq<Block<T>>, s: nat, i: nat)
    requires AllSized(blocks, s) && i < |blocks|
    ensures |Samples(blocks)| == |blocks| * s
    ensures i * s + s <= |Samples(blocks)| && Samples(blocks)[i * s..i * s + s] == blocks[i].samples
  {
    var last := |blocks| - 1;
    var prefix := blocks[..last];
    assert AllSized(prefix, s);
    if i < last {
      SamplesBlock(prefix, s, i);
      BlockOrder(i, last, s);
      assert Samples(blocks)[i * s..i * s + s] == Samples(prefix)[i * s..i * s + s];
    } else {
      SamplesLength(prefix, s);
    }
  }

  lemma {:induction false} SamplesLength<T>(blocks: seq<Block<T>>, s: nat)
    requires AllSized(blocks, s)
    ensures |Samples(blocks)| == |blocks| * s
  {
    if |blocks| > 0 {
      var prefix := blocks[..|blocks| - 1];
      assert AllSized(prefix, s);
      SamplesLength(prefix, s);
      assert |blocks| * s == (|blocks| - 1) * s + s;
    }
  }

  /** `std::find_if` over `m_queue` for the id: the position of the first
      entry with that id. */
  function FindFirst(queue: seq<FrequencyMark>, sequenceId: nat): (i: nat)
    requires exists j :: 0 <= j < |queue| && queue[j].sequenceId == sequenceId
    ensures i < |queue| && queue[i].sequenceId == sequenceId
    ensures forall j :: 0 <= j < i ==> queue[j].sequenceId != sequenceId
  {
    if queue[0].sequenceId == sequenceId then 0
    else
      var j :| 0 <= j < |queue| && queue[j].sequenceId == sequenceId;
      assert queue[1..][j - 1].sequenceId == sequenceId;
      1 + FindFirst(queue[1..], sequenceId)
  }

  /** Blocks of `s` samples laid end to end start at distinct ids. */
  lemma BlockStarts(i: nat, j: nat, s: nat)
    requires 0 < s
    ensures i * s == j * s <==> i == j
  {
    if i < j {
      BlockOrder(i, j, s);
    } else if j < i {
      BlockOrder(j, i, s);
    }
  }

  /** The sample counts behind the read conditions: with `appended - read`
      blocks of `s` unread and at most `capacityBlocks` of them, the unread
      samples fit in the ring, and when one block is unread it lies before
      the end. */
  lemma UnreadSamples(appended: nat, read: nat, capacityBlocks: nat, s: nat)
    requires read <= appended && appended - read <= capacityBlocks
    ensures appended * s - read * s == (appended - read) * s <= capacityBlocks * s
    ensures read < appended ==> read * s + s <= appended * s && (read + 1) * s == read * s + s
  {
    MulMonotone(appended - read, capacityBlocks, s);
    assert appended * s == (appended - read) * s + read * s;
    if read < appended {
      BlockOrder(read, appended, s);
    }
  }

  class SampleBuffer<T(0)> {
    const kind: SampleKind
    /** `m_enob`: passed to the sample conversion, which is not modelled. */
    const enob: nat
    const sampleCount: nat
    const ring: CircularBuffer<T>
    /** `m_floatComplex`: the staging block the conversions write into and
        every append copies from. */
    const floatComplex: array<T>
    /** `m_queue` in push order. */
    var queue: seq<FrequencyMark>
    var nextOutSequenceId: nat
    var done: bool
    /** The whole blocks the ring can hold. */
    ghost const capacityBlocks: nat
    /** Every block appended, oldest first, and how many were read. */
    ghost var appends: seq<Block<T>>
    ghost var readBlocks: nat

    /** The buffer between operations, or (when `pending`) between
        AppendHelper and the append it prepares: the ring holds the
        appended blocks back to back from id 0, the read cursor stands at
        the start of the first unread block, at most a ring's worth of
        blocks is unread, and `m_queue` has one entry per block holding its
        first id and frequency (plus, when pending, one for the block about
        to be appended). */
    ghost predicate Consistent(pending: bool)
      reads this, ring`endSequenceId, ring`bufferBegin, ring`bufferEnd, ring`isEmpty, ring`history, ring.data
    {
      RingHolds() && CursorInRange() && QueueMarks(pending)
    }

    /** The ring holds the appended blocks back to back from id 0. */
    ghost predicate RingHolds()
      reads this`appends, ring`endSequenceId, ring`bufferBegin, ring`bufferEnd, ring`isEmpty, ring`history, ring.data
    {
      && ring.Valid() && ring.geometry == Geometry(RingBlockCount, RingBlockSize)
      && 0 < sampleCount && capacityBlocks * sampleCount == RingCapacity
      && floatComplex.Length == sampleCount && floatComplex != ring.data
      && ring.endSequenceId == |appends| * sampleCount
      && AllSized(appends, sampleCount) && ring.history == Samples(appends)
    }

    /** The read cursor stands at the start of the first unread block, and
        at most a ring's worth of blocks is unread. */
    ghost predicate CursorInRange()
      reads this`appends, this`readBlocks, this`nextOutSequenceId
    {
      && readBlocks <= |appends| && |appends| - readBlocks <= capacityBlocks
      && nextOutSequenceId == readBlocks * sampleCount
    }

    /** `m_queue` has one entry per block, holding its first id and its
        frequency, plus, when pending, one for the block about to be
        appended at the end id. */
    ghost predicate QueueMarks(pending: bool)
      reads this`queue, this`appends, ring`endSequenceId
    {
      && |queue| == |appends| + (if pending then 1 else 0)
      && (forall i :: 0 <= i < |appends| ==>
            queue[i] == FrequencyMark(i * sampleCount, appends[i].centerFrequency))
      && (pending ==> queue[|appends|].sequenceId == ring.endSequenceId)
    }

    ghost predicate Valid()
      reads this, ring`endSequenceId, ring`bufferBegin, ring`bufferEnd, ring`isEmpty, ring`history, ring.data
    {
      Consistent(false)
    }

    /** The constructor asserts a legal kind. The block size must divide the
        ring, or appends would overwrite unread samples (see README). */
    constructor (kind: SampleKind, enob: nat, sampleCount: nat)
      requires kind != Illegal
      requires 0 < sampleCount && RingCapacity % sampleCount == 0
      ensures Valid() && fresh(ring) && fresh(ring.data) && fresh(floatComplex)
      ensures this.kind == kind && this.sampleCount == sampleCount
      ensures appends == [] && readBlocks == 0 && queue == [] && !done
    {
      this.kind := kind;
      this.enob := enob;
      this.sampleCount := sampleCount;
      ring := new CircularBuffer(RingBlockCount, RingBlockSize);
      floatComplex := new T[sampleCount];
      queue := [];
      nextOutSequenceId := 0;
      done := false;
      capacityBlocks := RingCapacity / sampleCount;
      appends := [];
      readBlocks := 0;
    }

    /** IsFull: the unread samples fill the ring; that is, a ring's worth of
        blocks is unread. */
    function IsFull(): (r: bool)
      reads this, ring`endSequenceId, ring`bufferBegin, ring`bufferEnd, ring`isEmpty, ring`history, ring.data
      requires Valid()
      ensures r <==> |appends| - readBlocks == capacityBlocks
    {
      UnreadSamples(|appends|, readBlocks, capacityBlocks, sampleCount);
      BlockStarts(|appends| - readBlocks, capacityBlocks, sampleCount);
      ring.GetEndSequenceId() - nextOutSequenceId == ring.geometry.Capacity()
    }

    /** IsEmpty: the read cursor has caught up with the end; that is, every
        appended block has been read. */
    function IsEmpty(): (r: bool)
      reads this, ring`endSequenceId, ring`bufferBegin, ring`bufferEnd, ring`isEmpty, ring`history, ring.data
      requires Valid()
      ensures r <==> |appends| == readBlocks
    {
      BlockStarts(|appends|, readBlocks, sampleCount);
      ring.GetEndSequenceId() == nextOutSequenceId
    }

    function GetIsDone(): bool
      reads this
    {
      done
    }

    /** GetCenterFrequency: the frequency of the first `m_queue` entry with
        the id; the source asserts there is one. */
    function GetCenterFrequency(sequenceId: nat): (r: real)
      reads this
      requires exists j :: 0 <= j < |queue| && queue[j].sequenceId == sequenceId
      ensures exists j :: 0 <= j < |queue| && queue[j] == FrequencyMark(sequenceId, r)
    {
      queue[FindFirst(queue, sequenceId)].centerFrequency
    }

    /** For a valid buffer, the entry found for the start of block `i` is
        the one that block's append pushed. */
    lemma CenterFrequencyOfBlock(i: nat)
      requires Valid() && i < |appends|
      ensures exists j :: 0 <= j < |queue| && queue[j].sequenceId == i * sampleCount
      ensures GetCenterFrequency(i * sampleCount) == appends[i].centerFrequency
    {
      assert queue[i].sequenceId == i * sampleCount;
      var k := FindFirst(queue, i * sampleCount);
      BlockStarts(k, i, sampleCount);
    }

    /** AppendHelper: record the end id, where the next block will start,
        with its frequency. */
    method AppendHelper(centerFrequency: real)
      requires Valid()
      modifies this`queue
      ensures Consistent(true)
      ensures queue == old(queue) + [FrequencyMark(ring.endSequenceId, centerFrequency)]
    {
      var sequenceId := ring.GetEndSequenceId();
      queue := queue + [FrequencyMark(sequenceId, centerFrequency)];
    }

    /** SynchronizedAppend: once the buffer is not full (the wait), append
        the staging block to the ring. The block becomes the newest one,
        with the frequency AppendHelper recorded. */
    method SynchronizedAppend()
      requires Consistent(true) && |appends| - readBlocks < capacityBlocks
      modifies ring`bufferEnd, ring`bufferBegin, ring`endSequenceId, ring`isEmpty, ring`history, ring.data,
               this`appends
      ensures Valid()
      ensures appends == old(appends) + [Block(old(floatComplex[..]), queue[|queue| - 1].centerFrequency)]
      ensures ring.history == old(ring.history) + old(floatComplex[..])
    {
      ghost var block := Block(floatComplex[..], queue[|queue| - 1].centerFrequency);
      ring.AppendItems(floatComplex[..]);
      SamplesAppend(appends, block);
      appends := appends + [block];
      SamplesLength(appends, sampleCount);
    }

    /** The two AppendSamples overloads for 16-bit input: the conversion
        into `m_floatComplex` (scaling by the ENOB, optional DC correction)
        is not modelled, so the caller passes the converted block. */
    method AppendShortSamples(converted: seq<T>, centerFrequency: real)
      requires Valid() && kind == Short && |converted| == sampleCount && !IsFull()
      modifies this`queue, this`appends, floatComplex,
               ring`bufferEnd, ring`bufferBegin, ring`endSequenceId, ring`isEmpty, ring`history, ring.data
      ensures Valid()
      ensures appends == old(appends) + [Block(converted, centerFrequency)]
    {
      AppendHelper(centerFrequency);
      Stage(converted);
      SynchronizedAppend();
    }

    method AppendShortComplexSamples(converted: seq<T>, centerFrequency: real)
      requires Valid() && kind == ShortComplex && |converted| == sampleCount && !IsFull()
      modifies this`queue, this`appends, floatComplex,
               ring`bufferEnd, ring`bufferBegin, ring`endSequenceId, ring`isEmpty, ring`history, ring.data
      ensures Valid()
      ensures appends == old(appends) + [Block(converted, centerFrequency)]
    {
      AppendHelper(centerFrequency);
      Stage(converted);
      SynchronizedAppend();
    }

    /** The conversion's effect: the converted block lands in
        `m_floatComplex`. */
    method Stage(converted: seq<T>)
      requires Consistent(true) && |converted| == sampleCount
      modifies floatComplex
      ensures Consistent(true) && floatComplex[..] == converted
    {
      forall i | 0 <= i < sampleCount {
        floatComplex[i] := converted[i];
      }
    }

    /** The float overload asserts the kind and appends the staging block
        as it stands: its argument is never read. */
    method AppendFloatComplexSamples(floatComplexSamples: seq<T>, centerFrequency: real)
      requires Valid() && kind == FloatComplex && !IsFull()
      modifies this`queue, this`appends,
               ring`bufferEnd, ring`bufferBegin, ring`endSequenceId, ring`isEmpty, ring`history, ring.data
      ensures Valid()
      ensures appends == old(appends) + [Block(old(floatComplex[..]), centerFrequency)]
    {
      AppendHelper(centerFrequency);
      SynchronizedAppend();
    }

    /** GetNextSamples: once the buffer is done or not empty (the wait),
        return false if it is done and empty; otherwise copy the oldest
        unread block into `outputBuffer`, return its frequency and move the
        read cursor past it. `centerFrequency` is the caller's variable,
        left alone when nothing is read. */
    method GetNextSamples(outputBuffer: array<T>, centerFrequency: real) returns (ok: bool, frequency: real)
      requires Valid() && (done || !IsEmpty())
      requires outputBuffer != ring.data && sampleCount <= outputBuffer.Length
      modifies this`nextOutSequenceId, this`readBlocks, ring`requests, outputBuffer
      ensures Valid()
      ensures ok <==> !(done && old(readBlocks) == |appends|)
      ensures !ok ==> frequency == centerFrequency && readBlocks == old(readBlocks) &&
                      outputBuffer[..] == old(outputBuffer[..])
      ensures ok ==> readBlocks == old(readBlocks) + 1 &&
                     outputBuffer[..sampleCount] == appends[old(readBlocks)].samples &&
                     outputBuffer[sampleCount..] == old(outputBuffer[sampleCount..]) &&
                     frequency == appends[old(readBlocks)].centerFrequency
    {
      if GetIsDone() {
        if IsEmpty() {
          return false, centerFrequency;
        }
      }
      frequency := ReadBlock(outputBuffer);
      ok := true;
    }

    /** The read of GetNextSamples once a block is known to be unread: the
        samples from the read cursor go to `outputBuffer`, the frequency
        recorded for them is returned and the cursor moves past them. */
    method ReadBlock(outputBuffer: array<T>) returns (frequency: real)
      requires Valid() && readBlocks < |appends|
      requires outputBuffer != ring.data && sampleCount <= outputBuffer.Length
      modifies this`nextOutSequenceId, this`readBlocks, ring`requests, outputBuffer
      ensures Valid()
      ensures readBlocks == old(readBlocks) + 1
      ensures outputBuffer[..sampleCount] == appends[old(readBlocks)].samples
      ensures outputBuffer[sampleCount..] == old(outputBuffer[sampleCount..])
      ensures frequency == appends[old(readBlocks)].centerFrequency
    {
      var count := CopyBlock(outputBuffer);
      CenterFrequencyOfBlock(readBlocks);
      frequency := GetCenterFrequency(nextOutSequenceId);
      UnreadSamples(|appends|, readBlocks, capacityBlocks, sampleCount);
      nextOutSequenceId := nextOutSequenceId + count;
      readBlocks := readBlocks + 1;
    }

    /** The ring read of GetNextSamples: a copy sink takes exactly the
        `sampleCount` samples from the read cursor (the source asserts the
        count), which are the oldest unread block. */
    method CopyBlock(outputBuffer: array<T>) returns (count: nat)
      requires Valid() && readBlocks < |appends|
      requires outputBuffer != ring.data && sampleCount <= outputBuffer.Length
      modifies ring`requests, outputBuffer
      ensures count == sampleCount
      ensures outputBuffer[..sampleCount] == appends[readBlocks].samples
      ensures outputBuffer[sampleCount..] == old(outputBuffer[sampleCount..])
    {
      var process := new ProcessInterface.CopyBuffer(outputBuffer);
      ReadWindow();
      count := ring.ProcessItems(nextOutSequenceId, sampleCount, process);
    }

    /** The oldest unread block lies among the items the ring still holds
        and ends by the ring's end, so a read of `sampleCount` items at the
        cursor is not trimmed and returns exactly that block. */
    lemma ReadWindow()
      requires Valid() && readBlocks < |appends|
      ensures nextOutSequenceId + sampleCount <= ring.endSequenceId
      ensures ring.endSequenceId - nextOutSequenceId <= ring.ItemCount()
      ensures ring.ReadCount(nextOutSequenceId, sampleCount, false) == sampleCount
      ensures ring.history[nextOutSequenceId..nextOutSequenceId + sampleCount] == appends[readBlocks].samples
    {
      UnreadSamples(|appends|, readBlocks, capacityBlocks, sampleCount);
      SamplesBlock(appends, sampleCount, readBlocks);
    }

    /** SetIsDone asserts it is called once. */
    method SetIsDone()
      requires !done
      modifies this`done
      ensures done
    {
      done := true;
    }
  }
}
