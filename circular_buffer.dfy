/** `CircularBuffer<ElementType, BufferSize>` (buffer.h, buffer.cpp): a ring
    of `bufferCount` blocks of `bufferSize` elements that the sample thread
    appends to, and that readers drain by sequence id into a sink. Every
    element ever appended is kept in the ghost `history`, indexed by its
    sequence id; the ring holds the newest `ItemCount()` of them. */
module CircularBuffers {
  import opened Arith
  import opened RingGeometry
  import opened Sinks
  import opened Wrappers

  /** An entry of `m_requests`: a read of `count` items from `sequenceId`. */
  datatype Request = Request(sequenceId: nat, count: nat)

  function RequestEnd(r: Request): nat {
    r.sequenceId + r.count
  }

  predicate Covers(r: Request, id: nat) {
    r.sequenceId <= id < RequestEnd(r)
  }

  /** The request list and the item count `AddRequest` leaves behind: a read
      is trimmed against the newest request (the front of the list). */
  function AddedRequest(requests: seq<Request>, sequenceId: nat, count: nat): (r: (seq<Request>, nat))
    ensures r.1 <= count
    ensures r.0 == requests || (|r.0| == |requests| + 1 && r.0[1..] == requests && r.0[0].count == r.1)
    ensures r.0 == requests ==> r.1 == 0
    // nothing is pushed exactly when the newest request reaches from the
    // start of the read past its end
    ensures r.0 == requests <==>
              |requests| > 0 && sequenceId <= RequestEnd(requests[0]) && sequenceId + count <= RequestEnd(requests[0])
    // no request reaching the start of the read: the whole read is
    // recorded and returned, even an empty one
    ensures |requests| == 0 || RequestEnd(requests[0]) < sequenceId ==>
              r == ([Request(sequenceId, count)] + requests, count)
    // the newest request covers the start of the read but not its end: only
    // the rest past that request is recorded and returned
    ensures |requests| > 0 && sequenceId <= RequestEnd(requests[0]) < sequenceId + count ==>
              var rest := sequenceId + count - RequestEnd(requests[0]);
              r == ([Request(RequestEnd(requests[0]), rest)] + requests, rest)
    // a request that is pushed ends where the read ends, and starts where
    // the previous newest request ended or later
    ensures r.0 != requests ==> RequestEnd(r.0[0]) == sequenceId + count && r.0[0].sequenceId >= sequenceId
    ensures r.0 != requests && |requests| > 0 ==> RequestEnd(requests[0]) <= r.0[0].sequenceId
    // nothing is left to read exactly when the read is empty or the newest
    // request already reaches past its end
    ensures r.1 == 0 <==> count == 0 || (|requests| > 0 && sequenceId + count <= RequestEnd(requests[0]))
    // when the newest request starts no later than the read, the two
    // requests together cover the read
    ensures |requests| > 0 && requests[0].sequenceId <= sequenceId ==>
              forall id :: sequenceId <= id < sequenceId + count ==>
                Covers(requests[0], id) || (r.0 != requests && Covers(r.0[0], id))
  {
    if |requests| > 0 && RequestEnd(requests[0]) >= sequenceId then
      var requestEndId := RequestEnd(requests[0]);
      if requestEndId < sequenceId + count then
        var difference := sequenceId + count - requestEndId;
        ([Request(requestEndId, difference)] + requests, difference)
      else
        (requests, 0)
    else
      ([Request(sequenceId, count)] + requests, count)
  }

  /** The `Process` chunks of a read of the ids `from .. to - 1` of
      `history`: each chunk runs from its first id to the end of that id's
      block, or to the end of the read if it comes first. */
  function BlockChunks<T>(bufferSize: nat, history: seq<T>, from: nat, to: nat): seq<seq<T>>
    requires 0 < bufferSize && from <= to <= |history|
    decreases (to as int) - (from as int)
  {
    if from == to then []
    else
      var k := Min(to - from, bufferSize - from % bufferSize);
      [history[from..from + k]] + BlockChunks(bufferSize, history, from + k, to)
  }

  /** The chunks put back together are the items read; each holds between
      one element and a block, and the first fits in the rest of its block. */
  lemma {:induction false} BlockChunksPartition<T>(bufferSize: nat, history: seq<T>, from: nat, to: nat)
    requires 0 < bufferSize && from <= to <= |history|
    ensures Flatten(BlockChunks(bufferSize, history, from, to)) == history[from..to]
    ensures forall i :: 0 <= i < |BlockChunks(bufferSize, history, from, to)| ==>
              1 <= |BlockChunks(bufferSize, history, from, to)[i]| <= bufferSize
    ensures from < to ==> |BlockChunks(bufferSize, history, from, to)[0]| <= bufferSize - from % bufferSize
    decreases (to as int) - (from as int)
  {
    if from < to {
      var k := Min(to - from, bufferSize - from % bufferSize);
      BlockChunksPartition(bufferSize, history, from + k, to);
      assert history[from..from + k] + history[from + k..to] == history[from..to];
      var chunks := BlockChunks(bufferSize, history, from, to);
      assert chunks[1..] == BlockChunks(bufferSize, history, from + k, to);
    }
  }

  /** The sink calls of a read of `n` items from `sequenceId`: nothing when
      `n` is 0, otherwise `Begin(sequenceId, n)`, one `Process` per block
      touched, and `End`. */
  function ReadTrace<T>(bufferSize: nat, history: seq<T>, sequenceId: nat, n: nat): seq<SinkCall<T>>
    requires bufferSize > 0 && sequenceId + n <= |history|
  {
    if n == 0 then []
    else Round(sequenceId, n, BlockChunks(bufferSize, history, sequenceId, sequenceId + n))
  }

  /** A read delivers, to a sink between rounds with room for it, exactly the
      items appended at ids `sequenceId .. sequenceId + n - 1`, in order: at
      the front of the copy sink's array or at the end of the file, and
      leaves the sink's counters at 0. */
  lemma ReadTraceDelivers<T>(kind: SinkKind, st: SinkState<T>, bufferSize: nat, history: seq<T>,
                             sequenceId: nat, n: nat)
    requires bufferSize > 0 && sequenceId + n <= |history|
    requires st.count == 0 && (kind == CopyBuffer ==> n <= |st.output|)
    ensures Run(kind, st, ReadTrace(bufferSize, history, sequenceId, n)).Some?
    ensures n > 0 ==>
              var st' := Run(kind, st, ReadTrace(bufferSize, history, sequenceId, n)).value;
              st'.count == 0 && st'.expectedCount == 0 &&
              (kind == CopyBuffer ==>
                 n <= |st'.output| && st'.output[..n] == history[sequenceId..sequenceId + n] &&
                 st'.output[n..] == st.output[n..] && st'.file == st.file) &&
              (kind == FileWrite ==>
                 st'.file == st.file + history[sequenceId..sequenceId + n] && st'.output == st.output)
  {
    if n > 0 {
      BlockChunksPartition(bufferSize, history, sequenceId, sequenceId + n);
      RoundRun(kind, st, sequenceId, n, BlockChunks(bufferSize, history, sequenceId, sequenceId + n));
    }
  }

  /** A sink that can take a read of `n` items: between rounds and, for the
      copy sink, with room for `n` elements. */
  ghost predicate SinkReady<T(0)>(process: ProcessInterface<T>, n: nat)
    reads process
  {
    n > 0 ==> process.count == 0 && (process.kind == CopyBuffer ==> n <= process.outputBuffer.Length)
  }

  /** What a read of the `n` items of `history` from `sequenceId` leaves in
      a sink whose array held `output0` and whose file held `file0`: the
      copy sink's array starts with those items and keeps the rest, the file
      sink's file gains them at its end, and the other one is unchanged. */
  ghost predicate Delivered<T>(kind: SinkKind, history: seq<T>, sequenceId: nat, n: nat,
                               output0: seq<T>, file0: seq<T>, output: seq<T>, file: seq<T>)
  {
    && sequenceId + n <= |history|
    && (kind == CopyBuffer ==>
          n <= |output| == |output0| && output[..n] == history[sequenceId..sequenceId + n] &&
          output[n..] == output0[n..] && file == file0)
    && (kind == FileWrite ==> file == file0 + history[sequenceId..sequenceId + n] && output == output0)
  }

  /** How many items `GetValidItemsAt` lets a read take at `iter`: as many as
      remain to be read in its block. It never stops short of the block's
      end while the read is still behind the ring's end. */
  lemma ValidItemsRead(g: Geometry, bufferBegin: Iterator, bufferEnd: Iterator, iter: Iterator,
                       endSequenceId: nat, id: nat, remaining: nat)
    requires g.Valid() && InRange(g, bufferEnd) && InRange(g, iter)
    requires bufferBegin != bufferEnd ==> endSequenceId < g.Capacity()
    requires Pos(g, bufferEnd) == endSequenceId % g.Capacity() && Pos(g, iter) == id % g.Capacity()
    requires 0 < remaining && id + remaining <= endSequenceId
    ensures Min(remaining, GetValidItemsAt(g, bufferBegin, bufferEnd, iter)) ==
            Min(remaining, g.bufferSize - iter.itemIndex)
  {
    if bufferEnd != bufferBegin && iter.bufferIndex == bufferEnd.bufferIndex
       && iter.itemIndex <= bufferEnd.itemIndex {
      DivModUnique(0, id, g.Capacity());
      DivModUnique(0, endSequenceId, g.Capacity());
    }
  }

  /** Where a read's iterator stands: its block offset is the id's offset
      in a block, and the rest of its block lies inside the array. */
  lemma ReadPosition(g: Geometry, iter: Iterator, id: nat)
    requires g.Valid() && InRange(g, iter) && Pos(g, iter) == id % g.Capacity()
    ensures iter.itemIndex == id % g.bufferSize
    ensures Pos(g, iter) + (g.bufferSize - iter.itemIndex) <= g.Capacity()
  {
    PosBelowCapacity(g, iter);
    ModBlockOffset(id, g.bufferCount, g.bufferSize);
    MulMonotone(iter.bufferIndex + 1, g.bufferCount, g.bufferSize);
  }

  /** Stepping back from the end iterator by the distance to an id the ring
      still holds gives that id's position. */
  lemma MinusToId(g: Geometry, bufferEnd: Iterator, endSequenceId: nat, id: nat)
    requires g.Valid() && InRange(g, bufferEnd) && Pos(g, bufferEnd) == endSequenceId % g.Capacity()
    requires id <= endSequenceId && endSequenceId - id <= g.Capacity()
    ensures Pos(g, Minus(g, bufferEnd, endSequenceId - id)) == id % g.Capacity()
  {
    var c := g.Capacity();
    var iter := Minus(g, bufferEnd, endSequenceId - id);
    PosBelowCapacity(g, iter);
    ModAddLeft(id, endSequenceId - id, c);
    ModCancel(Pos(g, iter), id % c, endSequenceId - id, c);
  }

  /** After `k` elements are written at the slot of `oldEnd`, the slots of
      the older ids still held by the ring were not written. */
  lemma OlderSlotUntouched(c: nat, oldEnd: nat, k: nat, id: nat)
    requires 0 < c && oldEnd % c + k <= c && id < oldEnd && oldEnd + k <= id + c
    ensures !(oldEnd % c <= id % c < oldEnd % c + k)
  {
    if oldEnd % c <= id % c < oldEnd % c + k {
      var j := id % c - oldEnd % c;
      ModShift(oldEnd, j, c);
      ModDistinct(id, oldEnd + j, c);
    }
  }

  /** The element with id `id` of `history` sits in its slot of the ring
      `slots`: `id` modulo the capacity. */
  ghost predicate SlotHolds<T>(slots: seq<T>, history: seq<T>, id: nat) {
    0 < |slots| && id < |history| && slots[id % |slots|] == history[id]
  }

  /** The ring holds the elements with ids `lo .. hi - 1` in their slots. */
  ghost predicate SlotsHold<T>(slots: seq<T>, history: seq<T>, lo: nat, hi: nat) {
    forall id :: lo <= id < hi ==> SlotHolds(slots, history, id)
  }

  /** Writing `k` new elements at the slot of the end id keeps every newer
      id in its slot: the new elements are in theirs, and the older ids that
      stay in the ring were not overwritten. */
  lemma SlotsHoldAfterWrite<T>(oldSlots: seq<T>, slots: seq<T>, oldHistory: seq<T>, items: seq<T>, k: nat,
                               oldLo: nat, oldEnd: nat, lo: nat)
    requires 0 < |oldSlots| == |slots| && |oldHistory| == oldEnd && k <= |items|
    requires oldEnd % |slots| + k <= |slots|
    requires SlotsHold(oldSlots, oldHistory, oldLo, oldEnd)
    requires forall i :: 0 <= i < |slots| ==>
               slots[i] == if oldEnd % |slots| <= i < oldEnd % |slots| + k then items[i - oldEnd % |slots|] else oldSlots[i]
    requires oldLo <= lo && oldEnd + k <= lo + |slots|
    ensures SlotsHold(slots, oldHistory + items[..k], lo, oldEnd + k)
  {
    var c := |slots|;
    var history := oldHistory + items[..k];
    forall id | lo <= id < oldEnd + k
      ensures SlotHolds(slots, history, id)
    {
      if id >= oldEnd {
        ModShift(oldEnd, id - oldEnd, c);
      } else {
        assert SlotHolds(oldSlots, oldHistory, id);
        OlderSlotUntouched(c, oldEnd, k, id);
      }
    }
  }

  /** Where a read of the `n` items of `history` from `sequenceId` stands
      after `done` of them: the chunks `taken` so far and the chunks of the
      rest make up the read's chunks, and the sink, started in state `st0`
      with trace `calls0`, has received one `Process` call per chunk taken
      and reached state `st`. */
  ghost predicate ReadProgress<T>(kind: SinkKind, bufferSize: nat, history: seq<T>, sequenceId: nat, n: nat,
                                  done: nat, taken: seq<seq<T>>, st0: SinkState<T>, calls0: seq<SinkCall<T>>,
                                  st: SinkState<T>, calls: seq<SinkCall<T>>)
    requires bufferSize > 0 && sequenceId + n <= |history| && done <= n
  {
    && taken + BlockChunks(bufferSize, history, sequenceId + done, sequenceId + n)
       == BlockChunks(bufferSize, history, sequenceId, sequenceId + n)
    && calls == calls0 + ProcessCalls(taken)
    && Run(kind, st0, ProcessCalls(taken)) == Some(st)
  }

  /** A `Process` call of the next chunk moves a read on by that chunk. */
  lemma ReadProgressStep<T>(kind: SinkKind, bufferSize: nat, history: seq<T>, sequenceId: nat, n: nat,
                            done: nat, k: nat, taken: seq<seq<T>>, st0: SinkState<T>, calls0: seq<SinkCall<T>>,
                            st: SinkState<T>, calls: seq<SinkCall<T>>, st': SinkState<T>, calls': seq<SinkCall<T>>,
                            done': nat, taken': seq<seq<T>>)
    requires bufferSize > 0 && sequenceId + n <= |history| && done < n
    requires ReadProgress(kind, bufferSize, history, sequenceId, n, done, taken, st0, calls0, st, calls)
    requires k == Min(n - done, bufferSize - (sequenceId + done) % bufferSize)
    requires Step(kind, st, Process(history[sequenceId + done..sequenceId + done + k])) == Some(st')
    requires calls' == calls + [Process(history[sequenceId + done..sequenceId + done + k])]
    requires done' == done + k && taken' == taken + [history[sequenceId + done..sequenceId + done + k]]
    ensures done' <= n
    ensures ReadProgress(kind, bufferSize, history, sequenceId, n, done', taken', st0, calls0, st', calls')
  {
    var chunk := history[sequenceId + done..sequenceId + done + k];
    assert sequenceId + n - (sequenceId + done) == n - done;
    assert BlockChunks(bufferSize, history, sequenceId + done, sequenceId + n)
           == [chunk] + BlockChunks(bufferSize, history, sequenceId + done', sequenceId + n);
    assert taken' + BlockChunks(bufferSize, history, sequenceId + done', sequenceId + n)
           == taken + BlockChunks(bufferSize, history, sequenceId + done, sequenceId + n);
    ProcessCallsStep(kind, st0, taken, chunk, st, st', calls0, calls, calls');
  }

  /** A read that has taken all its items has made exactly its chunks'
      `Process` calls. */
  lemma ReadProgressDone<T>(kind: SinkKind, bufferSize: nat, history: seq<T>, sequenceId: nat, n: nat,
                            taken: seq<seq<T>>, st0: SinkState<T>, calls0: seq<SinkCall<T>>,
                            st: SinkState<T>, calls: seq<SinkCall<T>>)
    requires bufferSize > 0 && sequenceId + n <= |history|
    requires ReadProgress(kind, bufferSize, history, sequenceId, n, n, taken, st0, calls0, st, calls)
    ensures calls == calls0 + ProcessCalls(BlockChunks(bufferSize, history, sequenceId, sequenceId + n))
    ensures Run(kind, st0, ProcessCalls(BlockChunks(bufferSize, history, sequenceId, sequenceId + n))) == Some(st)
  {
    assert taken + [] == taken;
  }

  /** The first read step: nothing taken, nothing called. */
  lemma ReadProgressStart<T>(kind: SinkKind, bufferSize: nat, history: seq<T>, sequenceId: nat, n: nat,
                             st0: SinkState<T>, calls0: seq<SinkCall<T>>)
    requires bufferSize > 0 && sequenceId + n <= |history|
    ensures ReadProgress(kind, bufferSize, history, sequenceId, n, 0, [], st0, calls0, st0, calls0)
  {
    assert calls0 + [] == calls0;
    assert [] + BlockChunks(bufferSize, history, sequenceId, sequenceId + n)
           == BlockChunks(bufferSize, history, sequenceId, sequenceId + n);
  }

  class CircularBuffer<T(0)> {
    const geometry: Geometry
    /** The blocks of `m_buffers` laid end to end: block `b` is
        `data[b * bufferSize .. (b + 1) * bufferSize]`. */
    const data: array<T>
    /** `m_requests`; index 0 is the front, the newest request. */
    var requests: seq<Request>
    var endSequenceId: nat
    var bufferBegin: Iterator
    var bufferEnd: Iterator
    var isEmpty: bool
    /** Every element appended so far; element `id` has sequence id `id`. */
    ghost var history: seq<T>

    /** The iterators' invariant: the end iterator stands at the end id
        modulo the capacity; the begin iterator stays at the start of block 0
        until the first append that fills the ring, and moves with the end
        iterator from then on. */
    ghost predicate Shape()
      reads this`endSequenceId, this`bufferBegin, this`bufferEnd, this`isEmpty
    {
      geometry.Valid() && data.Length == geometry.Capacity()
      && InRange(geometry, bufferBegin) && InRange(geometry, bufferEnd)
      && Pos(geometry, bufferEnd) == endSequenceId % geometry.Capacity()
      && isEmpty == (endSequenceId == 0)
      && bufferBegin == (if endSequenceId < geometry.Capacity() then Iterator(0, 0) else bufferEnd)
    }

    /** How many of the appended elements the ring still holds. */
    ghost function ItemCount(): nat
      reads this`endSequenceId
    {
      Min(endSequenceId, geometry.Capacity())
    }

    /** The ring holds the newest `ItemCount()` elements, each at its id
        modulo the capacity. */
    ghost predicate Stored()
      reads this`history, this`endSequenceId, data
    {
      |history| == endSequenceId && data.Length == geometry.Capacity() && geometry.Capacity() > 0
      && SlotsHold(data[..], history, endSequenceId - ItemCount(), endSequenceId)
    }

    ghost predicate Valid()
      reads this`endSequenceId, this`bufferBegin, this`bufferEnd, this`isEmpty, this`history, data
    {
      Shape() && Stored()
    }

    /** The constructor asserts more than one block. The output file it may
        open is not modelled. */
    constructor (bufferCount: nat, bufferSize: nat)
      requires bufferCount > 1 && bufferSize > 0
      ensures Valid() && fresh(data)
      ensures geometry == Geometry(bufferCount, bufferSize)
      ensures endSequenceId == 0 && history == [] && requests == [] && isEmpty
    {
      geometry := Geometry(bufferCount, bufferSize);
      data := new T[bufferCount * bufferSize];
      requests := [];
      endSequenceId := 0;
      bufferBegin := Iterator(0, 0);
      bufferEnd := Iterator(0, 0);
      isEmpty := true;
      history := [];
    }

    /** IsFull: not empty and the iterators meet, which happens exactly once
        a whole capacity has been appended. */
    function IsFull(): (r: bool)
      reads this`endSequenceId, this`bufferBegin, this`bufferEnd, this`isEmpty
      requires Shape()
      ensures r <==> endSequenceId >= geometry.Capacity()
    {
      if 0 < endSequenceId < geometry.Capacity() then
        DivModUnique(0, endSequenceId, geometry.Capacity());
        IteratorEqualIffSamePosition(geometry, bufferBegin, bufferEnd);
        !isEmpty && bufferBegin == bufferEnd
      else
        !isEmpty && bufferBegin == bufferEnd
    }

    /** IsEmpty: nothing was ever appended; it never becomes true again. */
    function IsEmpty(): (r: bool)
      reads this`endSequenceId, this`bufferBegin, this`bufferEnd, this`isEmpty
      requires Shape()
      ensures r <==> endSequenceId == 0
    {
      isEmpty
    }

    function GetEndSequenceId(): (r: nat)
      reads this`endSequenceId, this`bufferBegin, this`bufferEnd, this`isEmpty, this`history, data
      requires Valid()
      ensures r == |history|
    {
      endSequenceId
    }

    /** GetItemCount: the capacity when full, otherwise the forward distance
        from the begin iterator to the end iterator, walked block by block. */
    method GetItemCount() returns (count: nat)
      requires Shape()
      ensures count == ItemCount() && count <= geometry.Capacity()
      ensures !IsFull() ==> count == Pos(geometry, bufferEnd) - Pos(geometry, bufferBegin)
    {
      if IsFull() {
        return geometry.Capacity();
      }
      DivModUnique(0, endSequenceId, geometry.Capacity());
      var iter := bufferBegin;
      count := 0;
      while iter != bufferEnd
        invariant InRange(geometry, iter)
        invariant Pos(geometry, iter) == count <= endSequenceId
        decreases endSequenceId - count
      {
        IteratorEqualIffSamePosition(geometry, iter, bufferEnd);
        var n := GetValidItemsAt(geometry, bufferBegin, bufferEnd, iter);
        DivModUnique(0, count + n, geometry.Capacity());
        count := count + n;
        iter := Plus(geometry, iter, n);
      }
      IteratorEqualIffSamePosition(geometry, iter, bufferEnd);
    }

    /** UpdateBufferEnd: advance the end by `itemCount`; when that overflows
        the ring, the begin iterator is set to the new end. */
    method UpdateBufferEnd(itemCount: nat)
      requires Shape() && itemCount > 0
      modifies this`bufferEnd, this`bufferBegin, this`endSequenceId, this`isEmpty
      ensures Shape()
      ensures endSequenceId == old(endSequenceId) + itemCount && !isEmpty
      ensures old(ItemCount()) + itemCount > geometry.Capacity() ==> bufferBegin == bufferEnd && IsFull()
    {
      var count := GetItemCount();
      var overflow := count + itemCount > geometry.Capacity();
      ghost var oldEnd := endSequenceId;
      isEmpty := false;
      bufferEnd := Plus(geometry, bufferEnd, itemCount);
      endSequenceId := endSequenceId + itemCount;
      ModAddLeft(oldEnd, itemCount, geometry.Capacity());
      if overflow {
        bufferBegin := bufferEnd;
        return;
      }
      if endSequenceId == geometry.Capacity() {
        DivModUnique(1, 0, geometry.Capacity());
        IteratorEqualIffSamePosition(geometry, bufferBegin, bufferEnd);
      }
    }

    /** AppendBlock: copy as many items as fit in the end iterator's block,
        at least one, into that block only, then advance the end. */
    method AppendBlock(items: seq<T>) returns (blockItemCount: nat)
      requires Valid() && |items| > 0
      modifies this`bufferEnd, this`bufferBegin, this`endSequenceId, this`isEmpty, this`history, data
      ensures Valid()
      ensures blockItemCount == Min(|items|, geometry.bufferSize - old(bufferEnd.itemIndex))
      ensures 1 <= blockItemCount
      ensures endSequenceId == old(endSequenceId) + blockItemCount
      ensures history == old(history) + items[..blockItemCount]
      ensures forall i :: 0 <= i < data.Length && !(old(Pos(geometry, bufferEnd)) <= i < old(Pos(geometry, bufferEnd)) + blockItemCount)
                ==> data[i] == old(data[i])
    {
      ghost var oldEnd, oldData, oldHistory, oldCount := endSequenceId, data[..], history, ItemCount();
      var destination := Pos(geometry, bufferEnd);
      blockItemCount := GetFreeItemsAtEnd(geometry, bufferEnd);
      blockItemCount := Min(|items|, blockItemCount);
      forall j | 0 <= j < blockItemCount {
        data[destination + j] := items[j];
      }
      history := history + items[..blockItemCount];
      UpdateBufferEnd(blockItemCount);
      SlotsHoldAfterWrite(oldData, data[..], oldHistory, items, blockItemCount, oldEnd - oldCount, oldEnd,
                          endSequenceId - ItemCount());
    }

    /** AppendItems: append block by block until every item is in the ring;
        the end id grows by exactly the number of items. */
    method AppendItems(items: seq<T>)
      requires Valid()
      modifies this`bufferEnd, this`bufferBegin, this`endSequenceId, this`isEmpty, this`history, data
      ensures Valid()
      ensures endSequenceId == old(endSequenceId) + |items|
      ensures history == old(history) + items
    {
      var cursor: nat := 0;
      var count: nat := |items|;
      while count > 0
        invariant Valid()
        invariant cursor + count == |items|
        invariant endSequenceId == old(endSequenceId) + cursor
        invariant history == old(history) + items[..cursor]
        decreases count
      {
        var saveCount := AppendBlock(items[cursor..]);
        assert items[..cursor] + items[cursor..][..saveCount] == items[..cursor + saveCount];
        cursor := cursor + saveCount;
        count := count - saveCount;
      }
      assert items[..cursor] == items;
    }

    /** AddRequest: trim a read against the newest request and record it. */
    method AddRequest(sequenceId: nat, count: nat) returns (r: nat)
      modifies this`requests
      ensures (requests, r) == AddedRequest(old(requests), sequenceId, count)
    {
      if |requests| > 0 {
        var requestEndId := RequestEnd(requests[0]);
        if requestEndId >= sequenceId {
          if requestEndId < sequenceId + count {
            var difference := sequenceId + count - requestEndId;
            requests := [Request(requestEndId, difference)] + requests;
            return difference;
          } else {
            return 0;
          }
        }
      }
      requests := [Request(sequenceId, count)] + requests;
      return count;
    }

    /** The number of items ProcessItems reads: the request, cut to what the
        ring holds and, for a merging sink, trimmed by AddRequest. */
    ghost function ReadCount(sequenceId: nat, count: nat, merge: bool): nat
      reads this`requests, this`endSequenceId
    {
      var n := Min(count, ItemCount());
      if merge then AddedRequest(requests, sequenceId, n).1 else n
    }

    /** ProcessItems: hand the sink `Begin`, the items block by block, and
        `End`. The start id must not be past the end (an assertion of the
        source) nor evicted (another assertion), and the read must end by
        the ring's end, or the loop stops making progress. The items handed
        over start at `sequenceId` even when AddRequest trimmed the read. */
    method ProcessItems(sequenceId: nat, count: nat, process: ProcessInterface<T>) returns (returnCount: nat)
      requires Valid() && process.Valid() && process.outputBuffer != data
      requires sequenceId <= endSequenceId
      requires ReadCount(sequenceId, count, process.doMergeRequests) > 0 ==>
                 endSequenceId - sequenceId <= ItemCount() &&
                 sequenceId + ReadCount(sequenceId, count, process.doMergeRequests) <= endSequenceId
      requires SinkReady(process, ReadCount(sequenceId, count, process.doMergeRequests))
      modifies this`requests, process, process.outputBuffer
      ensures Valid()
      ensures returnCount == old(ReadCount(sequenceId, count, process.doMergeRequests))
      ensures requests == if process.doMergeRequests
                          then AddedRequest(old(requests), sequenceId, Min(count, ItemCount())).0
                          else old(requests)
      ensures sequenceId + returnCount <= |history|
      ensures process.calls == old(process.calls) + ReadTrace(geometry.bufferSize, history, sequenceId, returnCount)
      ensures process.count == old(process.count) && process.expectedCount == (if returnCount > 0 then 0 else old(process.expectedCount))
      ensures Delivered(process.kind, history, sequenceId, returnCount,
                        old(process.outputBuffer[..]), old(process.file), process.outputBuffer[..], process.file)
    {
      var itemCount := GetItemCount();
      var n := Min(count, itemCount);
      if process.GetDoMergeRequests() {
        n := AddRequest(sequenceId, n);
      }
      returnCount := n;
      if n == 0 {
        return;
      }
      ghost var st0 := process.State();
      ReadRound(sequenceId, n, process);
      ReadTraceDelivers(process.kind, st0, geometry.bufferSize, history, sequenceId, n);
    }

    /** The part of ProcessItems from `Begin` to `End`, for a read of `n > 0`
        items: the sink goes through exactly the calls of the read's trace. */
    method ReadRound(sequenceId: nat, n: nat, process: ProcessInterface<T>)
      requires Valid() && process.outputBuffer != data && n > 0
      requires endSequenceId - sequenceId <= ItemCount() && sequenceId + n <= endSequenceId
      requires process.count == 0 && (process.kind == CopyBuffer ==> n <= process.outputBuffer.Length)
      modifies process, process.outputBuffer
      ensures process.calls == old(process.calls) + ReadTrace(geometry.bufferSize, history, sequenceId, n)
      ensures Run(process.kind, old(process.State()), ReadTrace(geometry.bufferSize, history, sequenceId, n))
              == Some(process.State())
    {
      ghost var st0, trace0 := process.State(), process.calls;
      process.Begin(sequenceId, n);
      ghost var st1, trace1 := process.State(), process.calls;
      var countFromEnd := endSequenceId - sequenceId;
      var iter := Minus(geometry, bufferEnd, countFromEnd);
      MinusToId(geometry, bufferEnd, endSequenceId, sequenceId);
      ProcessBlocks(sequenceId, n, iter, process);
      ghost var st2, trace2 := process.State(), process.calls;
      process.End();
      ghost var chunks := BlockChunks(geometry.bufferSize, history, sequenceId, sequenceId + n);
      RoundCompose(process.kind, st0, st1, st2, process.State(), sequenceId, n, chunks,
                   trace0, trace1, trace2, process.calls);
      assert ReadTrace(geometry.bufferSize, history, sequenceId, n) == Round(sequenceId, n, chunks);
    }

    /** The loop of ProcessItems: hand the sink the `n` items from
        `sequenceId` on, one `Process` call per block touched. */
    method ProcessBlocks(sequenceId: nat, n: nat, iter0: Iterator, process: ProcessInterface<T>)
      requires Valid() && process.outputBuffer != data
      requires endSequenceId - sequenceId <= ItemCount() && sequenceId + n <= endSequenceId
      requires InRange(geometry, iter0) && Pos(geometry, iter0) == sequenceId % geometry.Capacity()
      requires process.kind == CopyBuffer ==> process.count + n <= process.outputBuffer.Length
      modifies process, process.outputBuffer
      ensures process.count == old(process.count) + n && process.expectedCount == old(process.expectedCount)
      ensures process.calls == old(process.calls) +
                ProcessCalls(BlockChunks(geometry.bufferSize, history, sequenceId, sequenceId + n))
      ensures Run(process.kind, old(process.State()),
                  ProcessCalls(BlockChunks(geometry.bufferSize, history, sequenceId, sequenceId + n)))
              == Some(process.State())
    {
      ghost var st0, calls0 := process.State(), process.calls;
      ghost var count0 := process.count;
      ghost var taken: seq<seq<T>> := [];
      var done: nat := 0;
      var iter := iter0;
      ReadProgressStart(process.kind, geometry.bufferSize, history, sequenceId, n, st0, calls0);
      while done < n
        invariant done <= n
        invariant InRange(geometry, iter) && Pos(geometry, iter) == (sequenceId + done) % geometry.Capacity()
        invariant process.count == count0 + done && process.expectedCount == old(process.expectedCount)
        invariant ReadProgress(process.kind, geometry.bufferSize, history, sequenceId, n, done, taken, st0, calls0,
                               process.State(), process.calls)
        decreases n - done
      {
        ghost var before, callsBefore, doneBefore, takenBefore := process.State(), process.calls, done, taken;
        var bufferItemCount;
        bufferItemCount, iter := ProcessBlock(sequenceId, n, done, iter, process);
        taken := taken + [history[sequenceId + done..sequenceId + done + bufferItemCount]];
        done := done + bufferItemCount;
        ReadProgressStep(process.kind, geometry.bufferSize, history, sequenceId, n, doneBefore, bufferItemCount,
                         takenBefore, st0, calls0, before, callsBefore, process.State(), process.calls, done, taken);
      }
      ReadProgressDone(process.kind, geometry.bufferSize, history, sequenceId, n, taken, st0, calls0,
                       process.State(), process.calls);
    }

    /** One turn of ProcessItems' loop: the read stands at id
        `sequenceId + done`; the sink is handed the rest of that id's block,
        or the rest of the read if it ends sooner, and the iterator moves on
        past it. */
    method ProcessBlock(sequenceId: nat, n: nat, done: nat, iter: Iterator, process: ProcessInterface<T>)
      returns (bufferItemCount: nat, next: Iterator)
      requires Valid() && process.outputBuffer != data
      requires endSequenceId - sequenceId <= ItemCount() && sequenceId + n <= endSequenceId && done < n
      requires InRange(geometry, iter) && Pos(geometry, iter) == (sequenceId + done) % geometry.Capacity()
      requires process.kind == CopyBuffer ==> process.count + (n - done) <= process.outputBuffer.Length
      modifies process, process.outputBuffer
      ensures bufferItemCount == Min(n - done, geometry.bufferSize - (sequenceId + done) % geometry.bufferSize)
      ensures 0 < bufferItemCount
      ensures InRange(geometry, next) && Pos(geometry, next) == (sequenceId + (done + bufferItemCount)) % geometry.Capacity()
      ensures process.count == old(process.count) + bufferItemCount && process.expectedCount == old(process.expectedCount)
      ensures Step(process.kind, old(process.State()),
                   Process(history[sequenceId + done..sequenceId + done + bufferItemCount])) == Some(process.State())
      ensures process.calls == old(process.calls) + [Process(history[sequenceId + done..sequenceId + done + bufferItemCount])]
    {
      ValidItemsRead(geometry, bufferBegin, bufferEnd, iter, endSequenceId, sequenceId + done, n - done);
      ReadPosition(geometry, iter, sequenceId + done);
      bufferItemCount := Min(n - done, GetValidItemsAt(geometry, bufferBegin, bufferEnd, iter));
      var source := Pos(geometry, iter);
      ReadChunk(sequenceId + done, source, bufferItemCount);
      process.Process(data[source..source + bufferItemCount]);
      next := Plus(geometry, iter, bufferItemCount);
      ModAddLeft(sequenceId + done, bufferItemCount, geometry.Capacity());
    }

    /** The items a read takes from one block are the ones appended at the
        ids it asks for. */
    lemma ReadChunk(id: nat, source: nat, k: nat)
      requires Valid() && source == id % geometry.Capacity() && source + k <= geometry.Capacity()
      requires endSequenceId - ItemCount() <= id && id + k <= endSequenceId
      ensures data[source..source + k] == history[id..id + k]
    {
      var c := geometry.Capacity();
      var stored, appended := data[source..source + k], history[id..id + k];
      forall j | 0 <= j < k ensures stored[j] == appended[j] {
        ModShift(id, j, c);
        assert SlotHolds(data[..], history, id + j);
      }
    }

    /** ProcessEndItems: read the newest `min(count, GetItemCount())` items,
        ending at the end id. */
    method ProcessEndItems(count: nat, process: ProcessInterface<T>) returns (r: nat)
      requires Valid() && process.Valid() && process.outputBuffer != data
      requires SinkReady(process, ReadCount(endSequenceId - Min(count, ItemCount()), Min(count, ItemCount()),
                                            process.doMergeRequests))
      modifies this`requests, process, process.outputBuffer
      ensures Valid()
      ensures r == old(ReadCount(endSequenceId - Min(count, ItemCount()), Min(count, ItemCount()), process.doMergeRequests))
      ensures endSequenceId - Min(count, ItemCount()) + r <= endSequenceId
      ensures process.calls == old(process.calls) + ReadTrace(geometry.bufferSize, history, endSequenceId - Min(count, ItemCount()), r)
      ensures !process.doMergeRequests ==> r == Min(count, ItemCount())
      ensures requests == if process.doMergeRequests
                          then AddedRequest(old(requests), endSequenceId - Min(count, ItemCount()), Min(count, ItemCount())).0
                          else old(requests)
      ensures process.count == old(process.count) && process.expectedCount == (if r > 0 then 0 else old(process.expectedCount))
      ensures Delivered(process.kind, history, endSequenceId - Min(count, ItemCount()), r,
                        old(process.outputBuffer[..]), old(process.file), process.outputBuffer[..], process.file)
    {
      var itemCount := GetItemCount();
      var n := Min(count, itemCount);
      assert Min(n, ItemCount()) == n;
      r := ProcessItems(endSequenceId - n, n, process);
    }

    /** ProcessBeginItems: read `min(count, GetItemCount())` items starting
        at the oldest id the ring still holds. */
    method ProcessBeginItems(count: nat, process: ProcessInterface<T>) returns (r: nat)
      requires Valid() && process.Valid() && process.outputBuffer != data
      requires SinkReady(process, ReadCount(endSequenceId - ItemCount(), Min(count, ItemCount()),
                                            process.doMergeRequests))
      modifies this`requests, process, process.outputBuffer
      ensures Valid()
      ensures r == old(ReadCount(endSequenceId - ItemCount(), Min(count, ItemCount()), process.doMergeRequests))
      ensures endSequenceId - ItemCount() + r <= endSequenceId
      ensures process.calls == old(process.calls) + ReadTrace(geometry.bufferSize, history, endSequenceId - ItemCount(), r)
      ensures !process.doMergeRequests ==> r == Min(count, ItemCount())
      ensures requests == if process.doMergeRequests
                          then AddedRequest(old(requests), endSequenceId - ItemCount(), Min(count, ItemCount())).0
                          else old(requests)
      ensures process.count == old(process.count) && process.expectedCount == (if r > 0 then 0 else old(process.expectedCount))
      ensures Delivered(process.kind, history, endSequenceId - ItemCount(), r,
                        old(process.outputBuffer[..]), old(process.file), process.outputBuffer[..], process.file)
    {
      var itemCount := GetItemCount();
      var n := Min(count, itemCount);
      var start := GetItemCount();
      r := ProcessItems(endSequenceId - start, n, process);
    }
  }
}
