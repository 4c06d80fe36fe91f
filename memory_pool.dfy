/** `MemoryPool<HeaderT, DataT>` (memoryPool.h): a fixed set of buffers
    handed out from the front of a free list and returned to its back.
    Buffers are values; a buffer's `slot` stands for its address, so the
    pool can say which of its buffers are out. Waits are preconditions. */
module MemoryPools {
  import opened Wrappers

  /** `Buffer<HeaderT, T>`: a header and `m_bufferSize` data elements. The
      pool numbers its buffers 0 .. bufferCount - 1 when it creates them. */
  datatype Buffer<H, D> = Buffer(slot: nat, header: H, data: seq<D>)

  /** The slot of each buffer of a list, in list order. */
  function Slots<H, D>(buffers: seq<Buffer<H, D>>): seq<nat> {
    seq(|buffers|, i requires 0 <= i < |buffers| => buffers[i].slot)
  }

  /** Each of the slots 0 .. n - 1 once. */
  function AllSlots(n: nat): multiset<nat> {
    multiset(seq(n, i => i))
  }

  /** The two operations that change the free list. */
  datatype PoolOp<H, D> = Allocate | Free(element: Buffer<H, D>)

  /** Running `ops` on the free list `free`: the final free list and the
      buffers the Allocates returned, in order. None when an Allocate finds
      the list empty, where the source waits for a Free that `ops` does not
      hold. */
  function Run<H, D>(free: seq<Buffer<H, D>>, ops: seq<PoolOp<H, D>>): Option<(seq<Buffer<H, D>>, seq<Buffer<H, D>>)> {
    if ops == [] then Some((free, []))
    else
      match Run(free, ops[..|ops| - 1])
      case None => None
      case Some((rest, out)) =>
        match ops[|ops| - 1]
        case Allocate => if rest == [] then None else Some((rest[1..], out + [rest[0]]))
        case Free(b) => Some((rest + [b], out))
  }

  /** The buffers `ops` frees, in order. */
  function Freed<H, D>(ops: seq<PoolOp<H, D>>): seq<Buffer<H, D>> {
    if ops == [] then []
    else Freed(ops[..|ops| - 1]) + (if ops[|ops| - 1].Free? then [ops[|ops| - 1].element] else [])
  }

  /** Reuse is first in, first out: the buffers handed out, followed by the
      free list that remains, are the initial free list followed by the
      freed buffers in the order they were freed. So a freed buffer comes
      back only after every buffer that was free before it. */
  lemma {:induction false} FifoReuse<H, D>(free: seq<Buffer<H, D>>, ops: seq<PoolOp<H, D>>)
    requires Run(free, ops).Some?
    ensures Run(free, ops).value.1 + Run(free, ops).value.0 == free + Freed(ops)
  {
    if ops != [] {
      var prefix := ops[..|ops| - 1];
      FifoReuse(free, prefix);
      var rest, out := Run(free, prefix).value.0, Run(free, prefix).value.1;
      match ops[|ops| - 1]
      case Allocate =>
        assert out + [rest[0]] + rest[1..] == out + rest;
      case Free(b) =>
        assert out + (rest + [b]) == (out + rest) + [b];
    }
  }

  class MemoryPool<H(0), D(0)> {
    const bufferSize: nat
    const bufferCount: nat
    /** `m_free`, front first. */
    var free: seq<Buffer<H, D>>
    /** The free list the constructor built, the operations since, the
        buffers handed out, and the slots of the buffers that are out. */
    ghost const initial: seq<Buffer<H, D>>
    ghost var ops: seq<PoolOp<H, D>>
    ghost var handedOut: seq<Buffer<H, D>>
    ghost var outstanding: multiset<nat>

    /** The free list is what the operations left of the initial one, and
        every slot of the pool is either on the free list or out, once. */
    ghost predicate Valid()
      reads this
    {
      && Run(initial, ops) == Some((free, handedOut))
      && multiset(Slots(free)) + outstanding == AllSlots(bufferCount)
    }

    /** The constructor creates `bufferCount` buffers of `bufferSize`
        elements and puts them on the free list. */
    constructor (bufferSize: nat, bufferCount: nat)
      ensures Valid() && this.bufferSize == bufferSize && this.bufferCount == bufferCount
      ensures |free| == bufferCount && outstanding == multiset{} && ops == []
      ensures forall i :: 0 <= i < |free| ==> free[i].slot == i && |free[i].data| == bufferSize
    {
      var header: H := *;
      var item: D := *;
      var list: seq<Buffer<H, D>> := [];
      var i := 0;
      while i < bufferCount
        invariant i <= bufferCount && |list| == i
        invariant forall j :: 0 <= j < i ==> list[j].slot == j && |list[j].data| == bufferSize
      {
        list := list + [Buffer(i, header, seq(bufferSize, _ => item))];
        i := i + 1;
      }
      assert Slots(list) == seq(bufferCount, j => j);
      this.bufferSize := bufferSize;
      this.bufferCount := bufferCount;
      free := list;
      initial := list;
      ops := [];
      handedOut := [];
      outstanding := multiset{};
    }

    /** Allocate: once the free list is not empty (the wait), take its
        front buffer. */
    method Allocate() returns (element: Buffer<H, D>)
      requires Valid() && |free| > 0
      modifies this
      ensures Valid()
      ensures element == old(free[0]) && free == old(free[1..])
      ensures ops == old(ops) + [PoolOp.Allocate] && handedOut == old(handedOut) + [element]
      ensures outstanding == old(outstanding) + multiset{element.slot}
    {
      element := free[0];
      assert Slots(free) == [element.slot] + Slots(free[1..]);
      assert (ops + [PoolOp.Allocate])[..|ops|] == ops;
      free := free[1..];
      ops := ops + [PoolOp.Allocate];
      handedOut := handedOut + [element];
      outstanding := outstanding + multiset{element.slot};
    }

    /** Free: put a buffer that is out back at the end of the free list. */
    method Free(element: Buffer<H, D>)
      requires Valid() && element.slot in outstanding
      modifies this
      ensures Valid()
      ensures free == old(free) + [element] && handedOut == old(handedOut)
      ensures ops == old(ops) + [PoolOp.Free(element)]
      ensures outstanding == old(outstanding) - multiset{element.slot}
    {
      assert Slots(free + [element]) == Slots(free) + [element.slot];
      assert (ops + [PoolOp.Free(element)])[..|ops|] == ops;
      free := free + [element];
      ops := ops + [PoolOp.Free(element)];
      outstanding := outstanding - multiset{element.slot};
    }

    /** The destructor's assertion: the free list holds `bufferCount`
        buffers exactly when none is out. */
    lemma AllReturned()
      requires Valid()
      ensures |free| + |outstanding| == bufferCount
      ensures |free| == bufferCount <==> outstanding == multiset{}
    {
      assert |AllSlots(bufferCount)| == bufferCount;
    }

    /** A pool's slots are distinct, so a slot that is out is not free. */
    lemma OutNotFree(slot: nat)
      requires Valid() && slot in outstanding
      ensures forall i :: 0 <= i < |free| ==> free[i].slot != slot
    {
      forall i | 0 <= i < |free|
        ensures free[i].slot != slot
      {
        if free[i].slot == slot {
          assert Slots(free)[i] == slot;
          assert multiset(Slots(free))[slot] >= 1;
          assert AllSlots(bufferCount)[slot] >= 2;
          SlotOnce(bufferCount, slot);
        }
      }
    }
  }

  /** Each slot occurs at most once among the pool's slots. */
  lemma {:induction false} SlotOnce(n: nat, slot: nat)
    ensures AllSlots(n)[slot] <= 1
  {
    if n > 0 {
      var s := seq(n, i => i);
      assert s == seq(n - 1, i => i) + [n - 1];
      SlotOnce(n - 1, slot);
    }
  }
}
