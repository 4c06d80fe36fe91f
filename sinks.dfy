/** The sink protocol a circular-buffer read drives (`ProcessInterface` in
    buffer.h) and its two implementations in processInterface.cpp: a sink
    that copies the chunks into an output array and one that appends them to
    a file. Each call is given meaning by the pure `Step`; the class methods
    are proved to follow it. */
module Sinks {
  import opened Wrappers

  /** The concrete sink behind a `ProcessInterface *`. */
  datatype SinkKind = CopyBuffer | FileWrite

  /** The merge flag each concrete sink passes to the `ProcessInterface`
      constructor: only the file writer asks for request merging. */
  function MergeFlag(kind: SinkKind): bool {
    match kind
    case CopyBuffer => false
    case FileWrite => true
  }

  /** The three operations of a sink: the alphabet of a read trace. */
  datatype SinkCall<T> =
    | Begin(sequenceId: nat, totalItemCount: nat)
    | Process(items: seq<T>)
    | End

  /** What a sink holds: `m_count`, `m_expectedCount`, the contents of the
      copy sink's output array, and what the file sink has written. */
  datatype SinkState<T> = SinkState(count: nat, expectedCount: nat, output: seq<T>, file: seq<T>)

  /** One sink call. `None` stands for the call failing: the copy sink's
      `memcpy` running past its output array, or `End`'s assertion that the
      expected number of items arrived. */
  function Step<T>(kind: SinkKind, st: SinkState<T>, call: SinkCall<T>): Option<SinkState<T>> {
    match call
    case Begin(_, totalItemCount) =>
      Some(st.(expectedCount := totalItemCount))
    case Process(items) =>
      if kind == CopyBuffer then
        if st.count + |items| <= |st.output| then
          Some(st.(output := st.output[..st.count] + items + st.output[st.count + |items|..],
                   count := st.count + |items|))
        else None
      else
        Some(st.(file := st.file + items, count := st.count + |items|))
    case End =>
      if st.expectedCount == st.count then Some(st.(count := 0, expectedCount := 0)) else None
  }

  /** A sequence of calls, stopping at the first failure. */
  function Run<T>(kind: SinkKind, st: SinkState<T>, calls: seq<SinkCall<T>>): Option<SinkState<T>>
    decreases |calls|
  {
    if |calls| == 0 then Some(st)
    else
      match Step(kind, st, calls[0])
      case None => None
      case Some(st') => Run(kind, st', calls[1..])
  }

  /** One `Process` call per chunk. */
  function ProcessCalls<T>(chunks: seq<seq<T>>): seq<SinkCall<T>> {
    if |chunks| == 0 then [] else [Process(chunks[0])] + ProcessCalls(chunks[1..])
  }

  function Flatten<T>(chunks: seq<seq<T>>): seq<T> {
    if |chunks| == 0 then [] else chunks[0] + Flatten(chunks[1..])
  }

  /** The calls of one read round: `Begin`, one `Process` per chunk, `End`. */
  function Round<T>(sequenceId: nat, totalItemCount: nat, chunks: seq<seq<T>>): seq<SinkCall<T>> {
    [Begin(sequenceId, totalItemCount)] + ProcessCalls(chunks) + [End]
  }

  lemma {:induction false} RunAppend<T>(kind: SinkKind, st: SinkState<T>, a: seq<SinkCall<T>>, b: seq<SinkCall<T>>)
    ensures Run(kind, st, a + b) ==
            match Run(kind, st, a)
            case None => None
            case Some(mid) => Run(kind, mid, b)
    decreases |a|
  {
    if |a| > 0 {
      assert (a + b)[0] == a[0];
      assert (a + b)[1..] == a[1..] + b;
      match Step(kind, st, a[0])
      case None =>
        assert Run(kind, st, a) == None;
        assert Run(kind, st, a + b) == None;
      case Some(st') =>
        RunAppend(kind, st', a[1..], b);
        assert Run(kind, st, a) == Run(kind, st', a[1..]);
        assert Run(kind, st, a + b) == Run(kind, st', a[1..] + b);
    } else {
      assert a + b == b;
    }
  }

  /** Appending one chunk appends one `Process` call. */
  lemma {:induction false} ProcessCallsSnoc<T>(chunks: seq<seq<T>>, c: seq<T>)
    ensures ProcessCalls(chunks + [c]) == ProcessCalls(chunks) + [Process(c)]
    decreases |chunks|
  {
    if |chunks| > 0 {
      assert (chunks + [c])[0] == chunks[0];
      assert (chunks + [c])[1..] == chunks[1..] + [c];
      ProcessCallsSnoc(chunks[1..], c);
    } else {
      assert chunks + [c] == [c];
    }
  }

  /** A run of `Process` calls extended by one more call that succeeds. */
  lemma RunProcessSnoc<T>(kind: SinkKind, st: SinkState<T>, chunks: seq<seq<T>>, c: seq<T>,
                          mid: SinkState<T>, next: SinkState<T>)
    requires Run(kind, st, ProcessCalls(chunks)) == Some(mid)
    requires Step(kind, mid, Process(c)) == Some(next)
    ensures Run(kind, st, ProcessCalls(chunks + [c])) == Some(next)
  {
    ProcessCallsSnoc(chunks, c);
    RunAppend(kind, st, ProcessCalls(chunks), [Process(c)]);
  }

  /** One more `Process` call, made by a sink whose trace so far and whose
      run so far are those of `chunks`: both move on by the chunk `c`. */
  lemma ProcessCallsStep<T>(kind: SinkKind, st: SinkState<T>, chunks: seq<seq<T>>, c: seq<T>,
                            mid: SinkState<T>, next: SinkState<T>,
                            calls0: seq<SinkCall<T>>, callsMid: seq<SinkCall<T>>, callsNext: seq<SinkCall<T>>)
    requires Run(kind, st, ProcessCalls(chunks)) == Some(mid)
    requires Step(kind, mid, Process(c)) == Some(next)
    requires callsMid == calls0 + ProcessCalls(chunks) && callsNext == callsMid + [Process(c)]
    ensures Run(kind, st, ProcessCalls(chunks + [c])) == Some(next)
    ensures callsNext == calls0 + ProcessCalls(chunks + [c])
  {
    RunProcessSnoc(kind, st, chunks, c, mid, next);
    ProcessCallsSnoc(chunks, c);
  }

  /** A round run call by call: `Begin`, the `Process` calls, then `End`. */
  lemma RoundCompose<T>(kind: SinkKind, st0: SinkState<T>, st1: SinkState<T>, st2: SinkState<T>, st3: SinkState<T>,
                        sequenceId: nat, totalItemCount: nat, chunks: seq<seq<T>>,
                        trace0: seq<SinkCall<T>>, trace1: seq<SinkCall<T>>, trace2: seq<SinkCall<T>>,
                        trace3: seq<SinkCall<T>>)
    requires Step(kind, st0, Begin(sequenceId, totalItemCount)) == Some(st1)
    requires trace1 == trace0 + [Begin(sequenceId, totalItemCount)]
    requires Run(kind, st1, ProcessCalls(chunks)) == Some(st2)
    requires trace2 == trace1 + ProcessCalls(chunks)
    requires Step(kind, st2, End) == Some(st3)
    requires trace3 == trace2 + [End]
    ensures Run(kind, st0, Round(sequenceId, totalItemCount, chunks)) == Some(st3)
    ensures trace3 == trace0 + Round(sequenceId, totalItemCount, chunks)
  {
    var calls := Round(sequenceId, totalItemCount, chunks);
    assert calls == [Begin(sequenceId, totalItemCount)] + (ProcessCalls(chunks) + [End]);
    assert trace3 == trace0 + calls;
    RunAppend(kind, st0, [Begin(sequenceId, totalItemCount)], ProcessCalls(chunks) + [End]);
    assert Run(kind, st0, [Begin(sequenceId, totalItemCount)]) == Some(st1);
    RunAppend(kind, st1, ProcessCalls(chunks), [End]);
    assert Run(kind, st2, [End]) == Step(kind, st2, End);
  }

  /** A run of `Process` calls on the copy sink succeeds exactly when the
      chunks fit behind `count`; it then writes their concatenation there,
      leaves the rest of the output alone and advances `count` by the number
      of items. */
  lemma {:induction false} CopyProcessRun<T>(st: SinkState<T>, chunks: seq<seq<T>>)
    requires st.count <= |st.output|
    ensures Run(CopyBuffer, st, ProcessCalls(chunks)).Some? <==> st.count + |Flatten(chunks)| <= |st.output|
    ensures Run(CopyBuffer, st, ProcessCalls(chunks)).Some? ==>
              Run(CopyBuffer, st, ProcessCalls(chunks)).value ==
                st.(count := st.count + |Flatten(chunks)|,
                    output := st.output[..st.count] + Flatten(chunks) + st.output[st.count + |Flatten(chunks)|..])
    decreases |chunks|
  {
    if |chunks| > 0 {
      var c := chunks[0];
      var calls := ProcessCalls(chunks);
      assert calls[0] == Process(c) && calls[1..] == ProcessCalls(chunks[1..]);
      var rest := Flatten(chunks[1..]);
      var flat := Flatten(chunks);
      assert flat == c + rest;
      var o, k := st.output, st.count;
      if k + |c| > |o| {
        assert Run(CopyBuffer, st, calls) == None;
      } else {
        var mid := st.(output := o[..k] + c + o[k + |c|..], count := k + |c|);
        assert Run(CopyBuffer, st, calls) == Run(CopyBuffer, mid, ProcessCalls(chunks[1..]));
        CopyProcessRun(mid, chunks[1..]);
        if k + |flat| <= |o| {
          SpliceStep(o, k, c, rest);
        }
      }
    }
  }

  /** Writing `c` at `k` and then `rest` right after it is writing `c + rest`
      at `k`. */
  lemma SpliceStep<T>(o: seq<T>, k: nat, c: seq<T>, rest: seq<T>)
    requires k + |c| + |rest| <= |o|
    ensures var m := o[..k] + c + o[k + |c|..];
            m[..k + |c|] + rest + m[k + |c| + |rest|..] == o[..k] + (c + rest) + o[k + |c + rest|..]
  {
    var m := o[..k] + c + o[k + |c|..];
    assert m[..k + |c|] == o[..k] + c;
    assert m[k + |c| + |rest|..] == o[k + |c + rest|..];
  }

  /** A run of `Process` calls on the file sink always succeeds, appends the
      concatenation of the chunks to the file and advances `count` by the
      number of items. */
  lemma {:induction false} FileProcessRun<T>(st: SinkState<T>, chunks: seq<seq<T>>)
    ensures Run(FileWrite, st, ProcessCalls(chunks)) ==
              Some(st.(count := st.count + |Flatten(chunks)|, file := st.file + Flatten(chunks)))
    decreases |chunks|
  {
    if |chunks| > 0 {
      var c := chunks[0];
      var calls := ProcessCalls(chunks);
      assert calls[0] == Process(c) && calls[1..] == ProcessCalls(chunks[1..]);
      assert Flatten(chunks) == c + Flatten(chunks[1..]);
      var mid := st.(file := st.file + c, count := st.count + |c|);
      assert Run(FileWrite, st, calls) == Run(FileWrite, mid, ProcessCalls(chunks[1..]));
      FileProcessRun(mid, chunks[1..]);
      assert st.file + Flatten(chunks) == mid.file + Flatten(chunks[1..]);
    } else {
      assert st.file + Flatten(chunks) == st.file;
    }
  }

  /** A whole round. From a sink that is between rounds (`count` is 0), it
      succeeds exactly when the chunks hold `totalItemCount` items and, for
      the copy sink, fit in the output array. It then leaves both counters at
      0 and the items, in call order, at the front of the output array or at
      the end of the file. */
  lemma {:induction false} RoundRun<T>(kind: SinkKind, st: SinkState<T>, sequenceId: nat, totalItemCount: nat,
                                      chunks: seq<seq<T>>)
    requires st.count == 0
    ensures Run(kind, st, Round(sequenceId, totalItemCount, chunks)).Some? <==>
              |Flatten(chunks)| == totalItemCount &&
              (kind == CopyBuffer ==> totalItemCount <= |st.output|)
    ensures Run(kind, st, Round(sequenceId, totalItemCount, chunks)).Some? ==>
              var st' := Run(kind, st, Round(sequenceId, totalItemCount, chunks)).value;
              st'.count == 0 && st'.expectedCount == 0 &&
              (kind == CopyBuffer ==>
                 totalItemCount <= |st'.output| &&
                 st'.output[..totalItemCount] == Flatten(chunks) &&
                 st'.output[totalItemCount..] == st.output[totalItemCount..] && st'.file == st.file) &&
              (kind == FileWrite ==> st'.output == st.output && st'.file == st.file + Flatten(chunks))
  {
    var begun := st.(expectedCount := totalItemCount);
    var calls := Round(sequenceId, totalItemCount, chunks);
    assert calls == [Begin(sequenceId, totalItemCount)] + (ProcessCalls(chunks) + [End]);
    RunAppend(kind, st, [Begin(sequenceId, totalItemCount)], ProcessCalls(chunks) + [End]);
    assert Run(kind, st, [Begin(sequenceId, totalItemCount)]) == Some(begun);
    RunAppend(kind, begun, ProcessCalls(chunks), [End]);
    if kind == CopyBuffer {
      CopyProcessRun(begun, chunks);
    } else {
      FileProcessRun(begun, chunks);
    }
    match Run(kind, begun, ProcessCalls(chunks))
    case None =>
    case Some(mid) =>
      assert Run(kind, mid, [End]) == Step(kind, mid, End);
  }

  /** `ProcessInterface` together with its two subclasses. `kind` selects the
      subclass; `outputBuffer` is the copy sink's `m_outputBuffer` (an empty
      array for the file sink); `file` is what the file sink has written. */
  class ProcessInterface<T(0)> {
    const kind: SinkKind
    const doMergeRequests: bool
    const outputBuffer: array<T>
    var count: nat
    var expectedCount: nat
    var file: seq<T>
    /** Every call the sink has received, oldest first. */
    ghost var calls: seq<SinkCall<T>>

    ghost predicate Valid() {
      doMergeRequests == MergeFlag(kind)
    }

    function State(): SinkState<T>
      reads this, outputBuffer
    {
      SinkState(count, expectedCount, outputBuffer[..], file)
    }

    /** CopyBufferProcessInterface's constructor. */
    constructor CopyBuffer(outputBuffer: array<T>)
      ensures Valid() && kind == SinkKind.CopyBuffer && this.outputBuffer == outputBuffer
      ensures count == 0 && expectedCount == 0 && file == [] && calls == []
    {
      kind := SinkKind.CopyBuffer;
      doMergeRequests := false;
      this.outputBuffer := outputBuffer;
      count, expectedCount, file := 0, 0, [];
      calls := [];
    }

    /** FileWriteProcessInterface's constructor; the file starts empty. */
    constructor FileWrite()
      ensures Valid() && kind == SinkKind.FileWrite && fresh(outputBuffer) && outputBuffer.Length == 0
      ensures count == 0 && expectedCount == 0 && file == [] && calls == []
    {
      kind := SinkKind.FileWrite;
      doMergeRequests := true;
      outputBuffer := new T[0];
      count, expectedCount, file := 0, 0, [];
      calls := [];
    }

    /** GetDoMergeRequests: the flag fixed at construction, which is true
        exactly for the file sink. */
    function GetDoMergeRequests(): (r: bool)
      requires Valid()
      ensures r <==> kind == SinkKind.FileWrite
    {
      doMergeRequests
    }

    /** Begin records the announced item count and nothing else: the
        sequence id is ignored and `count` is not reset. */
    method Begin(sequenceId: nat, totalItemCount: nat)
      modifies this
      ensures expectedCount == totalItemCount && count == old(count) && file == old(file)
      ensures Step(kind, old(State()), SinkCall.Begin(sequenceId, totalItemCount)) == Some(State())
      ensures calls == old(calls) + [SinkCall.Begin(sequenceId, totalItemCount)]
    {
      expectedCount := totalItemCount;
      calls := calls + [SinkCall.Begin(sequenceId, totalItemCount)];
    }

    /** Process: the copy sink writes the chunk at `outputBuffer[count..]`,
        the file sink appends it to the file; both advance `count`. */
    method Process(items: seq<T>)
      requires kind == SinkKind.CopyBuffer ==> count + |items| <= outputBuffer.Length
      modifies this, outputBuffer
      ensures count == old(count) + |items| && expectedCount == old(expectedCount)
      ensures kind == SinkKind.CopyBuffer ==>
                outputBuffer[..old(count)] == old(outputBuffer[..])[..old(count)] &&
                outputBuffer[old(count)..count] == items &&
                outputBuffer[count..] == old(outputBuffer[..])[count..] &&
                file == old(file)
      ensures kind == SinkKind.FileWrite ==>
                file == old(file) + items && outputBuffer[..] == old(outputBuffer[..])
      ensures Step(kind, old(State()), SinkCall.Process(items)) == Some(State())
      ensures calls == old(calls) + [SinkCall.Process(items)]
    {
      if kind == SinkKind.CopyBuffer {
        forall j | 0 <= j < |items| {
          outputBuffer[count + j] := items[j];
        }
        assert outputBuffer[..] == old(outputBuffer[..count]) + items + old(outputBuffer[count + |items|..]);
      } else {
        file := file + items;
      }
      count := count + |items|;
      calls := calls + [SinkCall.Process(items)];
    }

    /** End asserts that the announced number of items arrived, then resets
        both counters. */
    method End()
      requires expectedCount == count
      modifies this
      ensures count == 0 && expectedCount == 0 && file == old(file)
      ensures Step(kind, old(State()), SinkCall.End) == Some(State())
      ensures calls == old(calls) + [SinkCall.End]
    {
      count, expectedCount := 0, 0;
      calls := calls + [SinkCall.End];
    }
  }
}
