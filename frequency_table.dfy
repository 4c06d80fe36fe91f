/** `FrequencyTable` (frequencyTable.cpp): the list of centre frequencies
    a scan steps through, each with an opaque `void *` a radio source can
    attach to it. It counts the completed scans and says when a scan
    starts. Frequencies are exact reals (double rounding is not modelled)
    and the constructor's printout is left out. */
module FrequencyTables {
  import opened Arith
  import opened Wrappers

  /** `m_iterationCount` is a `uint32_t`. */
  const UInt32Modulus: nat := 0x1_0000_0000

  /** The first entry lies three eighths of the sample rate above the
      start frequency. */
  function FirstFrequency(sampleRate: nat, startFrequency: real): real {
    startFrequency + 0.375 * sampleRate as real
  }

  /** The constructor counts entries `0.375 - 0.025` sample rates apart ... */
  const CountingStep: real := 0.375 - 0.025

  /** ... but spaces them `0.40` sample rates apart. */
  const EntryStep: real := 0.40

  /** Entry `i` of the table. */
  function EntryFrequency(sampleRate: nat, startFrequency: real, i: nat): real {
    FirstFrequency(sampleRate, startFrequency) + i as real * EntryStep * sampleRate as real
  }

  /** `count` is the least number of counting steps from the first entry
      that reaches the stop frequency: the first counting loop's exit. */
  ghost predicate CountReaches(sampleRate: nat, startFrequency: real, stopFrequency: real, count: nat) {
    var f1 := FirstFrequency(sampleRate, startFrequency);
    var step := CountingStep * sampleRate as real;
    && f1 + count as real * step >= stopFrequency
    && (count > 0 ==> f1 + (count - 1) as real * step < stopFrequency)
  }

  /** The count the constructor's assertion expects:
      `ceil((stop - f1) / (step * sampleRate))`. */
  function ExpectedCount(sampleRate: nat, startFrequency: real, stopFrequency: real): int
    requires 0 < sampleRate
  {
    Ceil((stopFrequency - FirstFrequency(sampleRate, startFrequency)) / (CountingStep * sampleRate as real))
  }

  /** The count the loop finds is the ceiling, floored at zero; so the
      constructor's assertion holds exactly when the stop frequency lies
      above the first entry less one counting step. Below that the loop
      finds no entry and the ceiling is negative. */
  lemma CountIsCeiling(sampleRate: nat, startFrequency: real, stopFrequency: real, count: nat)
    requires 0 < sampleRate && CountReaches(sampleRate, startFrequency, stopFrequency, count)
    ensures var expected := ExpectedCount(sampleRate, startFrequency, stopFrequency);
            count == if expected < 0 then 0 else expected
    ensures count == ExpectedCount(sampleRate, startFrequency, stopFrequency) <==>
            stopFrequency > FirstFrequency(sampleRate, startFrequency) - CountingStep * sampleRate as real
  {
    var f1 := FirstFrequency(sampleRate, startFrequency);
    var step := CountingStep * sampleRate as real;
    var width := stopFrequency - f1;
    var x := width / step;
    var c := Ceil(x);
    assert (c - 1) as real < x <= c as real;
    QuotientOrder(count as real, width, step);
    QuotientOrder((count - 1) as real, width, step);
    QuotientOrder(-1.0, width, step);
    assert count as real >= x;
    assert count > 0 ==> (count - 1) as real < x;
  }

  /** Entries grow with their index: a scan sweeps upwards. */
  lemma EntriesIncrease(sampleRate: nat, startFrequency: real, i: nat, j: nat)
    requires 0 < sampleRate && i < j
    ensures EntryFrequency(sampleRate, startFrequency, i) < EntryFrequency(sampleRate, startFrequency, j)
  {
    var a, b := i as real * EntryStep, j as real * EntryStep;
    ScaleLess(i as real, j as real, EntryStep);
    ScaleLess(a, b, sampleRate as real);
    assert EntryFrequency(sampleRate, startFrequency, i) == FirstFrequency(sampleRate, startFrequency) + a * sampleRate as real;
    assert EntryFrequency(sampleRate, startFrequency, j) == FirstFrequency(sampleRate, startFrequency) + b * sampleRate as real;
  }

  /** `FrequencyInfo`: a frequency and the `void *` attached to it, `None`
      standing for `nullptr`. */
  datatype FrequencyInfo<I> = FrequencyInfo(frequency: real, info: Option<I>)

  /** The variable a `void **pinfo` argument points to. */
  class InfoSlot<I> {
    var value: Option<I>

    constructor ()
      ensures value == None
    {
      value := None;
    }
  }

  /** GetNextFrequency on the pair (frequency index, iteration count) for
      a table of `size` entries. */
  function Advance(size: nat, index: nat, iterationCount: nat): (nat, nat) {
    if index + 1 >= size then (0, (iterationCount + 1) % UInt32Modulus) else (index + 1, iterationCount)
  }

  /** `k` calls of GetNextFrequency. */
  function AdvanceN(size: nat, index: nat, iterationCount: nat, k: nat): (nat, nat) {
    if k == 0 then (index, iterationCount)
    else
      var p := AdvanceN(size, index, iterationCount, k - 1);
      Advance(size, p.0, p.1)
  }

  /** After `k` steps the index is `k` places on, modulo the table size,
      and the iteration count has gone up once per wrap (in 32 bits): it
      counts the scans completed. */
  lemma {:induction false} AdvanceNClosedForm(size: nat, index: nat, iterationCount: nat, k: nat)
    requires 0 < size && index < size && iterationCount < UInt32Modulus
    ensures AdvanceN(size, index, iterationCount, k) ==
            ((index + k) % size, (iterationCount + (index + k) / size) % UInt32Modulus)
  {
    if k == 0 {
      DivModUnique(0, index, size);
      DivModUnique(0, iterationCount, UInt32Modulus);
    } else {
      AdvanceNClosedForm(size, index, iterationCount, k - 1);
      var x := index + (k - 1);
      var r, q := x % size, x / size;
      var c := (iterationCount + q) % UInt32Modulus;
      CountStep(x, size);
      if r + 1 == size {
        ModAddLeft(iterationCount + q, 1, UInt32Modulus);
        assert Advance(size, r, c) == (0, (c + 1) % UInt32Modulus);
      } else {
        assert Advance(size, r, c) == (r + 1, c);
      }
      assert AdvanceN(size, index, iterationCount, k) == Advance(size, r, c);
    }
  }

  /** A step lands on a scan start exactly when it completes a scan, that
      is, exactly when it changes the iteration count. */
  lemma ScanStartIffCounted(size: nat, index: nat, iterationCount: nat)
    requires 0 < size && index < size && iterationCount < UInt32Modulus
    ensures Advance(size, index, iterationCount).0 == 0 <==> Advance(size, index, iterationCount).1 != iterationCount
  {
    if index + 1 >= size {
      if iterationCount + 1 < UInt32Modulus {
        DivModUnique(0, iterationCount + 1, UInt32Modulus);
      } else {
        DivModUnique(1, 0, UInt32Modulus);
      }
    }
  }

  class FrequencyTable<I> {
    /** `m_table`. */
    var table: seq<FrequencyInfo<I>>
    var frequencyIndex: nat
    var iterationCount: nat

    /** The index is in the table (or 0 for an empty one) and the count fits
        in 32 bits. */
    ghost predicate Valid()
      reads this
    {
      (frequencyIndex < |table| || frequencyIndex == 0) && iterationCount < UInt32Modulus
    }

    /** The constructor counts the entries needed to reach the stop
        frequency in counting steps, then fills that many entries spaced
        by the entry step, none with info yet; index 0, no scan
        completed. The count is a `uint32_t`: a range needing 2^32 entries
        would never end the first loop. */
    constructor (sampleRate: nat, startFrequency: real, stopFrequency: real)
      requires 0 < sampleRate < UInt32Modulus
      requires ExpectedCount(sampleRate, startFrequency, stopFrequency) < UInt32Modulus
      ensures Valid() && frequencyIndex == 0 && iterationCount == 0
      ensures CountReaches(sampleRate, startFrequency, stopFrequency, |table|)
      ensures forall i :: 0 <= i < |table| ==> table[i] == FrequencyInfo(EntryFrequency(sampleRate, startFrequency, i), None)
    {
      var rate := sampleRate as real;
      var f1 := startFrequency + 0.375 * rate;
      var step := 0.375 - 0.025;
      var count: nat := 0;
      while f1 + count as real * step * rate < stopFrequency
        invariant count > 0 ==> f1 + (count - 1) as real * (step * rate) < stopFrequency
        decreases ExpectedCount(sampleRate, startFrequency, stopFrequency) - count
      {
        assert count as real * step * rate == count as real * (step * rate);
        QuotientOrder(count as real, stopFrequency - f1, step * rate);
        count := count + 1;
      }
      assert count as real * step * rate == count as real * (step * rate);
      var entries: seq<FrequencyInfo<I>> := [];
      for i := 0 to count
        invariant |entries| == i
        invariant forall j :: 0 <= j < i ==> entries[j] == FrequencyInfo(EntryFrequency(sampleRate, startFrequency, j), None)
      {
        entries := entries + [FrequencyInfo(f1 + i as real * 0.40 * rate, None)];
      }
      table := entries;
      frequencyIndex := 0;
      iterationCount := 0;
    }

    /** GetNextFrequency: move to the next entry, or wrap to 0 at the end
        and count a completed scan; then return the entry as
        GetCurrentFrequency does. The entry is read, so the table must not
        be empty. */
    method GetNextFrequency(pinfo: InfoSlot?<I>) returns (frequency: real)
      requires Valid() && |table| > 0
      modifies this`frequencyIndex, this`iterationCount, pinfo
      ensures Valid()
      ensures (frequencyIndex, iterationCount) == Advance(|table|, old(frequencyIndex), old(iterationCount))
      ensures frequency == table[frequencyIndex].frequency
      ensures pinfo != null ==> pinfo.value == table[frequencyIndex].info
    {
      frequencyIndex := frequencyIndex + 1;
      if frequencyIndex >= |table| {
        frequencyIndex := 0;
        iterationCount := (iterationCount + 1) % UInt32Modulus;
      }
      frequency := GetCurrentFrequency(pinfo);
    }

    /** GetCurrentFrequency: the current entry's frequency; its info is
        written through `pinfo` when that is not null. Nothing else
        changes. */
    method GetCurrentFrequency(pinfo: InfoSlot?<I>) returns (frequency: real)
      requires Valid() && |table| > 0
      modifies pinfo
      ensures frequency == table[frequencyIndex].frequency
      ensures pinfo != null ==> pinfo.value == table[frequencyIndex].info
    {
      var finfo := table[frequencyIndex];
      if pinfo != null {
        pinfo.value := finfo.info;
      }
      frequency := finfo.frequency;
    }

    function GetFrequencyCount(): nat
      reads this
    {
      |table|
    }

    /** GetFrequencyFromIndex asserts the index is in the table. */
    function GetFrequencyFromIndex(index: nat): real
      reads this
      requires index < |table|
    {
      table[index].frequency
    }

    /** SetFrequencyInfoForIndex asserts the index is in the table and
        replaces that entry's info only. */
    method SetFrequencyInfoForIndex(index: nat, info: Option<I>)
      requires Valid() && index < |table|
      modifies this`table
      ensures Valid() && |table| == old(|table|)
      ensures table[index] == FrequencyInfo(old(table[index].frequency), info)
      ensures forall j :: 0 <= j < |table| && j != index ==> table[j] == old(table[j])
    {
      table := table[index := table[index].(info := info)];
    }

    function GetIterationCount(): nat
      reads this
    {
      iterationCount
    }

    function GetIsScanStart(): bool
      reads this
    {
      frequencyIndex == 0
    }
  }
}
