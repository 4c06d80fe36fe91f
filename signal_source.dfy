/** `SignalSource` (signalSource.cpp): the base of the radio sources. It
    builds the list of centre frequencies of a scan and steps through it,
    counting down a number of scans; with timing on it records retune and
    read times up to a fixed number of entries. Frequencies are exact reals
    (double rounding is not modelled); the thread and the clock are left
    out. */
module SignalSources {
  import opened Arith

  /** `uint32_t` arithmetic wraps at 2^32. */
  const UInt32Modulus: nat := 0x1_0000_0000

  /** The number of frequencies: `ceil((stop - start) / sampleRate)`, one
      per band of `sampleRate` from the start frequency. */
  function FrequencyCount(sampleRate: nat, startFrequency: real, stopFrequency: real): int
    requires 0 < sampleRate
  {
    Ceil((stopFrequency - startFrequency) / sampleRate as real)
  }

  /** Entry `i` of the list: the start frequency, plus `i * sampleRate` as
      a 32-bit product, plus half the sample rate rounded down. */
  function FrequencyAt(sampleRate: nat, startFrequency: real, i: nat): real {
    startFrequency + ((i * sampleRate) % UInt32Modulus) as real + (sampleRate / 2) as real
  }

  /** The bands of the list cover the range: `count` bands reach the stop
      frequency and one fewer would not. */
  lemma FrequencyCountCovers(sampleRate: nat, startFrequency: real, stopFrequency: real)
    requires 0 < sampleRate && startFrequency <= stopFrequency
    ensures var count := FrequencyCount(sampleRate, startFrequency, stopFrequency);
            count >= 0 &&
            startFrequency + count as real * sampleRate as real >= stopFrequency &&
            (count > 0 ==> startFrequency + (count - 1) as real * sampleRate as real < stopFrequency)
  {
    var rate := sampleRate as real;
    var x := (stopFrequency - startFrequency) / rate;
    var count := Ceil(x);
    assert (count - 1) as real < x <= count as real;
    CeilScale(x, rate, stopFrequency - startFrequency, count);
  }

  /** Where the 32-bit product does not wrap, entry `i` is the centre of
      band `i` (half the rate rounded down past its lower edge) and lies
      below the stop frequency. */
  lemma FrequencyInBand(sampleRate: nat, startFrequency: real, stopFrequency: real, i: nat)
    requires 0 < sampleRate && startFrequency <= stopFrequency
    requires i < FrequencyCount(sampleRate, startFrequency, stopFrequency) && i * sampleRate < UInt32Modulus
    ensures var low := startFrequency + (i * sampleRate) as real;
            low < stopFrequency &&
            low <= FrequencyAt(sampleRate, startFrequency, i) < low + sampleRate as real
  {
    FrequencyCountCovers(sampleRate, startFrequency, stopFrequency);
    var count := FrequencyCount(sampleRate, startFrequency, stopFrequency);
    var product := i * sampleRate;
    MulMonotone(i, count - 1, sampleRate);
    RealOfProduct(count - 1, sampleRate);
    DivModUnique(0, product, UInt32Modulus);
    assert (product % UInt32Modulus) as real == product as real;
    assert sampleRate / 2 < sampleRate;
  }

  /** `(a - b)` floored at 0: a countdown that stops at zero. */
  function Saturated(a: nat, b: nat): nat {
    if a >= b then a - b else 0
  }

  /** GetNextFrequency on the pair (frequency index, iteration count) for
      a list of `size` entries. */
  function Advance(size: nat, index: nat, iterationCount: nat): (nat, nat)
    requires 0 < size
  {
    var next := (index + 1) % size;
    (next, if next == 0 && iterationCount > 0 then iterationCount - 1 else iterationCount)
  }

  /** `k` calls of GetNextFrequency. */
  function AdvanceN(size: nat, index: nat, iterationCount: nat, k: nat): (nat, nat)
    requires 0 < size
  {
    if k == 0 then (index, iterationCount)
    else
      var p := AdvanceN(size, index, iterationCount, k - 1);
      Advance(size, p.0, p.1)
  }

  /** After `k` steps the index is `k` places on, modulo the list size,
      and the iteration count has gone down once per wrap to index 0,
      stopping at zero. So a source told to make `n` scans from index 0
      reaches a count of zero exactly after `n * size` steps. */
  lemma {:induction false} AdvanceNClosedForm(size: nat, index: nat, iterationCount: nat, k: nat)
    requires 0 < size && index < size
    ensures AdvanceN(size, index, iterationCount, k) ==
            ((index + k) % size, Saturated(iterationCount, (index + k) / size))
  {
    if k == 0 {
      DivModUnique(0, index, size);
    } else {
      AdvanceNClosedForm(size, index, iterationCount, k - 1);
      var x := index + (k - 1);
      var r, q := x % size, x / size;
      CountStep(x, size);
      if r + 1 == size {
        assert (r + 1) % size == 0;
      } else {
        DivModUnique(0, r + 1, size);
      }
      assert AdvanceN(size, index, iterationCount, k) == Advance(size, r, Saturated(iterationCount, q));
    }
  }

  class SignalSource {
    const sampleRate: nat
    const sampleCount: nat
    const startFrequency: real
    const stopFrequency: real
    /** `m_frequencies`. */
    const frequencies: seq<real>
    /** `s_maxIndex`, the number of timing entries kept. */
    const maxIndex: nat
    var frequencyIndex: nat
    var iterationCount: nat
    var doTiming: bool
    var retuneTimeIndex: nat
    var getSamplesTimeIndex: nat
    var retuneTime: seq<real>
    var getSamplesTime: seq<real>

    /** The index is in the list (or 0 for an empty list), the count fits in
        32 bits, and the timing indices never pass `s_maxIndex`. */
    ghost predicate Valid()
      reads this
    {
      && (frequencyIndex < |frequencies| || frequencyIndex == 0)
      && iterationCount < UInt32Modulus
      && |retuneTime| == maxIndex && |getSamplesTime| == maxIndex
      && retuneTimeIndex <= maxIndex && getSamplesTimeIndex <= maxIndex
    }

    /** The constructor fills the list with one entry per band. The count
        is a `double` converted to `uint32_t`, so it must be in range. */
    constructor (sampleRate: nat, sampleCount: nat, startFrequency: real, stopFrequency: real, doTiming: bool, maxIndex: nat)
      requires 0 < sampleRate < UInt32Modulus
      requires 0 <= FrequencyCount(sampleRate, startFrequency, stopFrequency) < UInt32Modulus
      ensures Valid()
      ensures |frequencies| == FrequencyCount(sampleRate, startFrequency, stopFrequency)
      ensures forall i :: 0 <= i < |frequencies| ==> frequencies[i] == FrequencyAt(sampleRate, startFrequency, i)
      ensures frequencyIndex == 0 && iterationCount == 0 && this.doTiming == doTiming
      ensures retuneTimeIndex == 0 && getSamplesTimeIndex == 0 && this.maxIndex == maxIndex
    {
      var numFrequencies: nat := FrequencyCount(sampleRate, startFrequency, stopFrequency);
      var list := seq(numFrequencies, _ => 0.0);
      var i := 0;
      while i < numFrequencies
        invariant i <= numFrequencies && |list| == numFrequencies
        invariant forall j :: 0 <= j < i ==> list[j] == FrequencyAt(sampleRate, startFrequency, j)
      {
        list := list[i := startFrequency + ((i * sampleRate) % UInt32Modulus) as real + (sampleRate / 2) as real];
        i := i + 1;
      }
      this.sampleRate := sampleRate;
      this.sampleCount := sampleCount;
      this.startFrequency := startFrequency;
      this.stopFrequency := stopFrequency;
      frequencies := list;
      this.maxIndex := maxIndex;
      frequencyIndex := 0;
      iterationCount := 0;
      this.doTiming := doTiming;
      retuneTimeIndex := 0;
      getSamplesTimeIndex := 0;
      retuneTime := seq(maxIndex, _ => 0.0);
      getSamplesTime := seq(maxIndex, _ => 0.0);
    }

    /** The hardware sources set the number of scans to make before they
        start streaming. */
    method SetIterationCount(numIterations: nat)
      requires Valid() && numIterations < UInt32Modulus
      modifies this`iterationCount
      ensures Valid() && iterationCount == numIterations
    {
      iterationCount := numIterations;
    }

    /** GetNextFrequency: move to the next entry, wrapping to 0, count down
        one scan at each wrap (not below zero), and return the new entry.
        The modulus is the list size, so the list must not be empty. */
    method GetNextFrequency() returns (frequency: real)
      requires Valid() && |frequencies| > 0
      modifies this`frequencyIndex, this`iterationCount
      ensures Valid()
      ensures (frequencyIndex, iterationCount) == Advance(|frequencies|, old(frequencyIndex), old(iterationCount))
      ensures frequency == frequencies[frequencyIndex]
    {
      var index := frequencyIndex;
      frequencyIndex := (index + 1) % |frequencies|;
      if frequencyIndex == 0 {
        if iterationCount > 0 {
          iterationCount := iterationCount - 1;
        }
      }
      frequency := GetCurrentFrequency();
    }

    function GetCurrentFrequency(): real
      reads this
      requires Valid() && |frequencies| > 0
    {
      frequencies[frequencyIndex]
    }

    function GetFrequencyCount(): nat
      reads this
    {
      |frequencies|
    }

    function GetIterationCount(): nat
      reads this
    {
      iterationCount
    }

    /** AddRetuneTime: with timing on and room left, record the elapsed
        time the last StopTimer measured at the next index. */
    method AddRetuneTime(elapsedTime: real)
      requires Valid()
      modifies this`retuneTimeIndex, this`retuneTime
      ensures Valid()
      ensures old(doTiming && retuneTimeIndex < maxIndex) ==>
                retuneTimeIndex == old(retuneTimeIndex) + 1 &&
                retuneTime == old(retuneTime)[old(retuneTimeIndex) := elapsedTime]
      ensures !old(doTiming && retuneTimeIndex < maxIndex) ==>
                retuneTimeIndex == old(retuneTimeIndex) && retuneTime == old(retuneTime)
    {
      if doTiming && retuneTimeIndex < maxIndex {
        retuneTime := retuneTime[retuneTimeIndex := elapsedTime];
        retuneTimeIndex := retuneTimeIndex + 1;
      }
    }

    /** AddGetSamplesTime: the same for the time a read of samples took. */
    method AddGetSamplesTime(elapsedTime: real)
      requires Valid()
      modifies this`getSamplesTimeIndex, this`getSamplesTime
      ensures Valid()
      ensures old(doTiming && getSamplesTimeIndex < maxIndex) ==>
                getSamplesTimeIndex == old(getSamplesTimeIndex) + 1 &&
                getSamplesTime == old(getSamplesTime)[old(getSamplesTimeIndex) := elapsedTime]
      ensures !old(doTiming && getSamplesTimeIndex < maxIndex) ==>
                getSamplesTimeIndex == old(getSamplesTimeIndex) && getSamplesTime == old(getSamplesTime)
    {
      if doTiming && getSamplesTimeIndex < maxIndex {
        getSamplesTime := getSamplesTime[getSamplesTimeIndex := elapsedTime];
        getSamplesTimeIndex := getSamplesTimeIndex + 1;
      }
    }
  }
}
