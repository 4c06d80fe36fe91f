/** Position arithmetic of the circular buffer (buffer.cpp): a ring of
    `bufferCount` blocks of `bufferSize` elements, addressed by iterators that
    name a block and an element inside it. Everything here works on copies of
    iterators and changes no state. */
module RingGeometry {
  import opened Arith

  /** The shape of the ring: `m_bufferCount` blocks of the template argument
      `BufferSize` elements each. */
  datatype Geometry = Geometry(bufferCount: nat, bufferSize: nat)
  {
    /** The constructor asserts more than one block; a block of no elements
        would make every iterator invalid. */
    predicate Valid() {
      bufferCount >= 2 && bufferSize >= 1
    }

    /** GetItemCapacity */
    function Capacity(): nat {
      bufferCount * bufferSize
    }
  }

  /** An iterator: `(m_bufferIndex, m_itemIndex)`. The container address of the
      source is the same for every iterator of one ring and is left out. */
  datatype Iterator = Iterator(bufferIndex: nat, itemIndex: nat)

  predicate InRange(g: Geometry, it: Iterator) {
    it.bufferIndex < g.bufferCount && it.itemIndex < g.bufferSize
  }

  /** The linear position of an iterator, `bufferIndex * BufferSize + itemIndex`. */
  function Pos(g: Geometry, it: Iterator): nat {
    it.bufferIndex * g.bufferSize + it.itemIndex
  }

  lemma PosBelowCapacity(g: Geometry, it: Iterator)
    requires g.Valid() && InRange(g, it)
    ensures Pos(g, it) < g.Capacity()
    ensures Pos(g, it) % g.bufferSize == it.itemIndex
    ensures Pos(g, it) / g.bufferSize == it.bufferIndex
  {
    MulMonotone(it.bufferIndex + 1, g.bufferCount, g.bufferSize);
    DivModUnique(it.bufferIndex, it.itemIndex, g.bufferSize);
  }

  /** Iterator equality (`operator==` compares the two records bytewise) is
      equality of linear positions. */
  lemma {:induction false} IteratorEqualIffSamePosition(g: Geometry, a: Iterator, b: Iterator)
    requires g.Valid() && InRange(g, a) && InRange(g, b)
    ensures a == b <==> Pos(g, a) == Pos(g, b)
  {
    PosBelowCapacity(g, a);
    PosBelowCapacity(g, b);
  }

  /** NextIndex: the following block, wrapping to block 0 after the last. */
  function NextIndex(g: Geometry, index: nat): (r: nat)
    requires g.Valid() && index < g.bufferCount
    ensures r < g.bufferCount
  {
    (index + 1) % g.bufferCount
  }

  /** PreviousIndex: the preceding block, wrapping to the last after block 0. */
  function PreviousIndex(g: Geometry, index: nat): (r: nat)
    requires g.Valid() && index < g.bufferCount
    ensures r < g.bufferCount
  {
    if index == 0 then g.bufferCount - 1 else index - 1
  }

  /** NextIndex and PreviousIndex undo each other. */
  lemma NextPreviousInverse(g: Geometry, index: nat)
    requires g.Valid() && index < g.bufferCount
    ensures PreviousIndex(g, NextIndex(g, index)) == index
    ensures NextIndex(g, PreviousIndex(g, index)) == index
  {
    if index + 1 < g.bufferCount {
      DivModUnique(0, index + 1, g.bufferCount);
    } else {
      DivModUnique(1, 0, g.bufferCount);
    }
    if index == 0 {
      DivModUnique(1, 0, g.bufferCount);
    } else {
      DivModUnique(0, index, g.bufferCount);
    }
  }

  /** `Iterator::operator+`: advance by `count` elements, taking the rest of
      the current block first, then whole blocks, then the remainder. The
      result is the position `count` further on, modulo the capacity. */
  function Plus(g: Geometry, it: Iterator, count: nat): (r: Iterator)
    requires g.Valid() && InRange(g, it)
    ensures InRange(g, r)
    ensures Pos(g, r) == (Pos(g, it) + count) % g.Capacity()
  {
    var blockItemCount := g.bufferSize - it.itemIndex;
    if blockItemCount == count then
      var r := Iterator(NextIndex(g, it.bufferIndex), 0);
      PlusToBlockEnd(g, it, count);
      r
    else if blockItemCount > count then
      var r := Iterator(it.bufferIndex, it.itemIndex + count);
      PlusInsideBlock(g, it, count);
      r
    else
      var rest := count - blockItemCount;
      var fullBufferCount := rest / g.bufferSize;
      var r := Iterator((NextIndex(g, it.bufferIndex) + fullBufferCount) % g.bufferCount,
                        rest - fullBufferCount * g.bufferSize);
      PlusAcrossBlocks(g.bufferCount, g.bufferSize, it.bufferIndex, it.itemIndex, count,
                       rest, fullBufferCount, r.bufferIndex, r.itemIndex);
      r
  }

  lemma PlusToBlockEnd(g: Geometry, it: Iterator, count: nat)
    requires g.Valid() && InRange(g, it) && count == g.bufferSize - it.itemIndex
    ensures Pos(g, Iterator(NextIndex(g, it.bufferIndex), 0)) == (Pos(g, it) + count) % g.Capacity()
  {
    var b, s := g.bufferCount, g.bufferSize;
    assert Pos(g, it) + count == (it.bufferIndex + 1) * s;
    BlockMod(it.bufferIndex + 1, 0, b, s);
  }

  lemma PlusInsideBlock(g: Geometry, it: Iterator, count: nat)
    requires g.Valid() && InRange(g, it) && count < g.bufferSize - it.itemIndex
    ensures Pos(g, Iterator(it.bufferIndex, it.itemIndex + count)) == (Pos(g, it) + count) % g.Capacity()
  {
    PosBelowCapacity(g, Iterator(it.bufferIndex, it.itemIndex + count));
    DivModUnique(0, Pos(g, it) + count, g.Capacity());
  }

  lemma PlusAcrossBlocks(b: nat, s: nat, bi: nat, ii: nat, count: nat, rest: nat, full: nat, newIndex: nat, newItem: nat)
    requires b >= 2 && s >= 1 && bi < b && ii < s
    requires count > s - ii && rest == count - (s - ii)
    requires full == rest / s && newItem == rest - full * s
    requires newIndex == ((bi + 1) % b + full) % b
    ensures newIndex * s + newItem == (bi * s + ii + count) % (b * s)
  {
    var rem := rest % s;
    assert rest == full * s + rem;
    assert newItem == rem;
    var a := bi + 1 + full;
    assert bi * s + ii + count == a * s + rem by {
      assert bi * s + ii + count == bi * s + s + rest;
      assert a * s == bi * s + s + full * s;
    }
    BlockMod(a, rem, b, s);
    ModAddLeft(bi + 1, full, b);
  }

  /** `Iterator::operator-`: the source computes `*this + (capacity - count)`
      and returns it; the backward walk it also performs is discarded. */
  function Minus(g: Geometry, it: Iterator, count: nat): (r: Iterator)
    requires g.Valid() && InRange(g, it) && count <= g.Capacity()
    ensures InRange(g, r)
    ensures (Pos(g, r) + count) % g.Capacity() == Pos(g, it)
  {
    var r := Plus(g, it, g.Capacity() - count);
    PosBelowCapacity(g, it);
    ModAddLeft(Pos(g, it) + (g.Capacity() - count), count, g.Capacity());
    ModAddMultiple(1, Pos(g, it), g.Capacity());
    DivModUnique(0, Pos(g, it), g.Capacity());
    r
  }

  /** GetBufferItemBegin: the first element of block `bufferIndex` that the
      backward walk of `operator-` counts as holding data. That walk's
      result is discarded (see `Minus`), so nothing in the ring's behaviour
      depends on this function; it is kept to show the walk's bounds. */
  function GetBufferItemBegin(g: Geometry, bufferBegin: Iterator, bufferEnd: Iterator, bufferIndex: nat): nat
  {
    if bufferBegin.bufferIndex != bufferEnd.bufferIndex then
      if bufferBegin.bufferIndex == bufferIndex then bufferBegin.itemIndex else 0
    else if bufferBegin.bufferIndex != bufferIndex then 0
    else if bufferEnd.itemIndex <= bufferBegin.itemIndex then 0
    else bufferBegin.itemIndex
  }

  /** GetBufferItemEnd: one past the last element of block `bufferIndex` that
      the backward walk counts as holding data; unused like
      `GetBufferItemBegin`. */
  function GetBufferItemEnd(g: Geometry, bufferBegin: Iterator, bufferEnd: Iterator, bufferIndex: nat): nat
  {
    if bufferBegin.bufferIndex != bufferEnd.bufferIndex then
      if bufferEnd.bufferIndex == bufferIndex then bufferEnd.itemIndex else g.bufferSize
    else if bufferBegin.bufferIndex != bufferIndex then g.bufferSize
    else bufferEnd.itemIndex
  }

  /** The range the two functions give is a well-formed part of one block, and
      the end iterator's block ends exactly at the end iterator, which is where
      the backward walk starts. */
  lemma BufferItemRange(g: Geometry, bufferBegin: Iterator, bufferEnd: Iterator, bufferIndex: nat)
    requires g.Valid() && InRange(g, bufferBegin) && InRange(g, bufferEnd)
    ensures GetBufferItemBegin(g, bufferBegin, bufferEnd, bufferIndex)
              <= GetBufferItemEnd(g, bufferBegin, bufferEnd, bufferIndex) <= g.bufferSize
    ensures GetBufferItemEnd(g, bufferBegin, bufferEnd, bufferEnd.bufferIndex) == bufferEnd.itemIndex
    ensures bufferIndex != bufferBegin.bufferIndex && bufferIndex != bufferEnd.bufferIndex ==>
              GetBufferItemBegin(g, bufferBegin, bufferEnd, bufferIndex) == 0 &&
              GetBufferItemEnd(g, bufferBegin, bufferEnd, bufferIndex) == g.bufferSize
  {
  }

  /** GetFreeItemsAtEnd: room left in the block the end iterator is in. At
      least one element, and exactly enough to reach the next block boundary. */
  function GetFreeItemsAtEnd(g: Geometry, bufferEnd: Iterator): (r: nat)
    requires g.Valid() && InRange(g, bufferEnd)
    ensures 1 <= r <= g.bufferSize
    ensures (Pos(g, bufferEnd) + r) % g.bufferSize == 0
    ensures Pos(g, bufferEnd) + r <= g.Capacity()
  {
    var r := g.bufferSize - bufferEnd.itemIndex;
    MulMonotone(bufferEnd.bufferIndex + 1, g.bufferCount, g.bufferSize);
    assert Pos(g, bufferEnd) + r == (bufferEnd.bufferIndex + 1) * g.bufferSize;
    DivModUnique(bufferEnd.bufferIndex + 1, 0, g.bufferSize);
    r
  }

  /** GetValidItemsAt: how many elements a read at `iter` can take without
      leaving its block. At or behind the end iterator of a ring that is not
      full (`begin != end`), that is the rest of the block or the distance
      to the end iterator, whichever is less: a forward walk that is behind
      the end takes at least one element and never passes the end. In a
      full ring, or past the end iterator, it is the rest of the block. */
  function GetValidItemsAt(g: Geometry, bufferBegin: Iterator, bufferEnd: Iterator, iter: Iterator): (r: nat)
    requires g.Valid() && InRange(g, bufferEnd) && InRange(g, iter)
    ensures r <= g.bufferSize - iter.itemIndex
    ensures bufferEnd != bufferBegin && Pos(g, iter) <= Pos(g, bufferEnd) ==>
              r == Min(g.bufferSize - iter.itemIndex, Pos(g, bufferEnd) - Pos(g, iter))
    ensures bufferEnd != bufferBegin && Pos(g, iter) < Pos(g, bufferEnd) ==>
              1 <= r && Pos(g, iter) + r <= Pos(g, bufferEnd)
    ensures bufferEnd == bufferBegin || Pos(g, bufferEnd) < Pos(g, iter) ==> r == g.bufferSize - iter.itemIndex
  {
    var itemIndexEnd :=
      if bufferEnd.bufferIndex == iter.bufferIndex && iter.itemIndex <= bufferEnd.itemIndex then
        (if bufferEnd == bufferBegin then g.bufferSize else bufferEnd.itemIndex)
      else g.bufferSize;
    if iter.bufferIndex < bufferEnd.bufferIndex then
      BlockOrder(iter.bufferIndex, bufferEnd.bufferIndex, g.bufferSize);
      itemIndexEnd - iter.itemIndex
    else if bufferEnd.bufferIndex < iter.bufferIndex then
      BlockOrder(bufferEnd.bufferIndex, iter.bufferIndex, g.bufferSize);
      itemIndexEnd - iter.itemIndex
    else
      itemIndexEnd - iter.itemIndex
  }
}
