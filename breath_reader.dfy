/**
 * The bit-banged synchronous reader of lab9 (get_breath): wait for the
 * peer to raise the data line, then clock in 24 bits, and finish with one
 * more clock pulse. The data line is given as the levels its reads return;
 * the clock line is recorded as a trace of events.
 *
 * The loop ORs each sampled bit into the accumulator before shifting it,
 * so the word returned is twice the conventional most-significant-first
 * value of the samples.
 */
module BreathReader {
  import opened MachineInts

  /** A level of the data line as its bit-band alias reads it. */
  type bit = x: int | 0 <= x <= 1

  /** The bits of one word. */
  const WordBits: nat := 24

  /** What get_breath does on the two lines, in order. */
  datatype LineEvent = ClockHigh | ClockLow | Sampled(level: bit)

  function Pow2(n: nat): (p: nat)
    ensures p >= 1
  {
    if n == 0 then 1 else 2 * Pow2(n - 1)
  }

  lemma {:induction false} Pow2Monotonic(m: nat, n: nat)
    requires m <= n
    ensures Pow2(m) <= Pow2(n)
    decreases n
  {
    if m < n {
      Pow2Monotonic(m, n - 1);
    }
  }

  lemma {:induction false} Pow2Add(m: nat, n: nat)
    ensures Pow2(m + n) == Pow2(m) * Pow2(n)
    decreases n
  {
    if n > 0 {
      Pow2Add(m, n - 1);
    }
  }

  /** The widths the reader works with: 2^24 for the samples and 2^25 for the returned word. */
  lemma Pow2OfWord()
    ensures Pow2(WordBits) == 0x100_0000
    ensures Pow2(WordBits + 1) == 0x200_0000
  {
    assert Pow2(8) == 0x100;
    Pow2Add(8, 8);
    Pow2Add(16, 8);
  }

  /** The value of `bits` read most significant bit first, by shifting each new bit in at the bottom. */
  function MsbFirst(bits: seq<bit>): (v: nat)
    ensures v < Pow2(|bits|)
  {
    if bits == [] then 0 else 2 * MsbFirst(bits[..|bits| - 1]) + bits[|bits| - 1]
  }

  /** Reference definition of the same value: the sum of bits[i] * 2^(|bits| - 1 - i). */
  function WeightedSum(bits: seq<bit>): nat
  {
    if bits == [] then 0 else bits[0] * Pow2(|bits| - 1) + WeightedSum(bits[1..])
  }

  lemma {:induction false} WeightedSumAppend(bits: seq<bit>, b: bit)
    ensures WeightedSum(bits + [b]) == 2 * WeightedSum(bits) + b
    decreases |bits|
  {
    if bits == [] {
      assert [] + [b] == [b];
    } else {
      var tail := bits[1..];
      assert (bits + [b])[1..] == tail + [b];
      WeightedSumAppend(tail, b);
      assert Pow2(|bits|) == 2 * Pow2(|bits| - 1);
    }
  }

  /** Shifting in from the bottom gives the positional value. */
  lemma {:induction false} MsbFirstIsWeightedSum(bits: seq<bit>)
    ensures MsbFirst(bits) == WeightedSum(bits)
    decreases |bits|
  {
    if bits != [] {
      var init, last := bits[..|bits| - 1], bits[|bits| - 1];
      MsbFirstIsWeightedSum(init);
      WeightedSumAppend(init, last);
      assert init + [last] == bits;
    }
  }

  /** `value |= reading` for a reading of 0 or 1: sets the lowest bit, keeps the others. */
  function OrBit(value: uint32, reading: bit): (r: uint32)
    ensures r / 2 == value / 2
    ensures r % 2 == 1 <==> value % 2 == 1 || reading == 1
  {
    if reading == 1 && value % 2 == 0 then value + 1 else value
  }

  /** `value = value << 1` on uint32_t: doubles, dropping bit 31. */
  function ShiftLeft1(value: uint32): (r: uint32)
    ensures r % 2 == 0
    ensures value < TwoTo31 ==> r == 2 * value
  {
    (2 * value) % TwoTo32
  }

  /** The clock and sampling events of the 24-bit loop for the samples read so far. */
  function BitEvents(samples: seq<bit>): seq<LineEvent>
  {
    if samples == [] then []
    else BitEvents(samples[..|samples| - 1]) + [ClockHigh, Sampled(samples[|samples| - 1]), ClockLow]
  }

  /** All events of get_breath after the ready wait: the bit loop and the final strobe. */
  function ReadTrace(samples: seq<bit>): seq<LineEvent>
  {
    BitEvents(samples) + [ClockHigh, ClockLow]
  }

  /** The number of rising clock edges in a trace. */
  function ClockPulses(trace: seq<LineEvent>): nat
  {
    if trace == [] then 0
    else ClockPulses(trace[..|trace| - 1]) + (if trace[|trace| - 1] == ClockHigh then 1 else 0)
  }

  /** The levels sampled in a trace, in order. */
  function SampledLevels(trace: seq<LineEvent>): seq<bit>
  {
    if trace == [] then []
    else SampledLevels(trace[..|trace| - 1]) + (if trace[|trace| - 1].Sampled? then [trace[|trace| - 1].level] else [])
  }

  lemma {:induction false} CountsAppend(a: seq<LineEvent>, b: seq<LineEvent>)
    ensures ClockPulses(a + b) == ClockPulses(a) + ClockPulses(b)
    ensures SampledLevels(a + b) == SampledLevels(a) + SampledLevels(b)
    decreases |b|
  {
    if b == [] {
      assert a + b == a;
    } else {
      var init := b[..|b| - 1];
      assert (a + b)[..|a + b| - 1] == a + init;
      CountsAppend(a, init);
    }
  }

  /** The clock is high before every sample (each sample is read while the clock is high). */
  ghost predicate SamplesWhileHigh(trace: seq<LineEvent>)
  {
    forall k :: 0 <= k < |trace| && trace[k].Sampled? ==> 0 < k && trace[k - 1] == ClockHigh
  }

  lemma {:induction false} BitEventsFacts(samples: seq<bit>)
    ensures |BitEvents(samples)| == 3 * |samples|
    ensures ClockPulses(BitEvents(samples)) == |samples|
    ensures SampledLevels(BitEvents(samples)) == samples
    ensures SamplesWhileHigh(BitEvents(samples))
    decreases |samples|
  {
    if samples != [] {
      var init, last := samples[..|samples| - 1], samples[|samples| - 1];
      BitEventsFacts(init);
      CountsAppend(BitEvents(init), [ClockHigh, Sampled(last), ClockLow]);
      BitTailFacts(last);
      SamplesWhileHighAppend(BitEvents(init), last);
      assert init + [last] == samples;
    }
  }

  /** The events of one bit: one rising edge and one sample. */
  lemma BitTailFacts(last: bit)
    ensures ClockPulses([ClockHigh, Sampled(last), ClockLow]) == 1
    ensures SampledLevels([ClockHigh, Sampled(last), ClockLow]) == [last]
  {
    var high := [ClockHigh];
    var highSampled := [ClockHigh, Sampled(last)];
    var tail := [ClockHigh, Sampled(last), ClockLow];
    assert high[..0] == [] && highSampled[..1] == high && tail[..2] == highSampled;
    assert ClockPulses(high) == 1 && SampledLevels(high) == [];
    assert ClockPulses(highSampled) == 1 && SampledLevels(highSampled) == [last];
  }

  /** Appending one bit's events keeps every sample after a rising edge. */
  lemma SamplesWhileHighAppend(a: seq<LineEvent>, last: bit)
    requires SamplesWhileHigh(a)
    ensures SamplesWhileHigh(a + [ClockHigh, Sampled(last), ClockLow])
  {
    var r := a + [ClockHigh, Sampled(last), ClockLow];
    forall k | 0 <= k < |r| && r[k].Sampled?
      ensures 0 < k && r[k - 1] == ClockHigh
    {
      if k < |a| {
        assert r[k] == a[k] && r[k - 1] == a[k - 1];
      } else {
        assert k == |a| + 1;
      }
    }
  }

  /**
   * One read raises the clock 25 times, samples the 24 levels in order, each
   * while the clock is high, and leaves the clock low.
   */
  lemma ReadTraceFacts(samples: seq<bit>)
    requires |samples| == WordBits
    ensures ClockPulses(ReadTrace(samples)) == WordBits + 1
    ensures SampledLevels(ReadTrace(samples)) == samples
    ensures SamplesWhileHigh(ReadTrace(samples))
    ensures ReadTrace(samples)[|ReadTrace(samples)| - 1] == ClockLow
  {
    BitEventsFacts(samples);
    var strobe := [ClockHigh, ClockLow];
    CountsAppend(BitEvents(samples), strobe);
    var high := [ClockHigh];
    assert high[..0] == [] && strobe[..1] == high;
    assert ClockPulses(high) == 1 && SampledLevels(high) == [];
    assert ClockPulses(strobe) == 1 && SampledLevels(strobe) == [];
  }

  /** The word is below 2^25, and so never overflows 32 bits. */
  lemma WordBounds(samples: seq<bit>)
    requires |samples| == WordBits
    ensures 2 * MsbFirst(samples) < Pow2(WordBits + 1) < TwoTo32
  {
    Pow2OfWord();
    assert Pow2(WordBits + 1) == 2 * Pow2(WordBits);
    assert MsbFirst(samples) < Pow2(WordBits);
  }

  /**
   * get_breath. `polls` are the levels the ready loop `while (!DATA);`
   * reads; the peer must raise the line at some point. `samples` are the
   * 24 levels read in the bit loop. Returns the word, how many polls found
   * the line low, and the line events of the read.
   */
  method GetBreath(polls: seq<bit>, samples: seq<bit>) returns (value: uint32, waited: nat, trace: seq<LineEvent>)
    requires 1 in polls
    requires |samples| == WordBits
    ensures waited < |polls| && polls[waited] == 1
    ensures forall j :: 0 <= j < waited ==> polls[j] == 0
    ensures value == 2 * MsbFirst(samples) == 2 * WeightedSum(samples)
    ensures value % 2 == 0
    ensures value < 0x200_0000
    ensures trace == ReadTrace(samples)
  {
    value := 0;
    waited := 0;
    while polls[waited] == 0
      invariant waited < |polls| && 1 in polls[waited..]
      invariant forall j :: 0 <= j < waited ==> polls[j] == 0
      decreases |polls| - waited
    {
      assert polls[waited..] == [polls[waited]] + polls[waited + 1..];
      waited := waited + 1;
    }
    value := 0;
    trace := [];
    for i := 0 to WordBits
      invariant value == 2 * MsbFirst(samples[..i])
      invariant trace == BitEvents(samples[..i])
    {
      var reading := samples[i];
      BitStep(samples, i, value);
      trace := trace + [ClockHigh];
      trace := trace + [Sampled(reading)];
      value := OrBit(value, reading);
      value := ShiftLeft1(value);
      trace := trace + [ClockLow];
    }
    trace := trace + [ClockHigh, ClockLow];
    assert samples[..WordBits] == samples;
    MsbFirstIsWeightedSum(samples);
    WordBounds(samples);
    Pow2OfWord();
  }

  /**
   * One pass of the bit loop: OR-ing in the next reading and shifting gives
   * the word of one more sample, and the pass adds one bit's events.
   */
  lemma BitStep(samples: seq<bit>, i: nat, value: uint32)
    requires i < |samples| && i < WordBits
    requires value == 2 * MsbFirst(samples[..i])
    ensures ShiftLeft1(OrBit(value, samples[i])) == 2 * MsbFirst(samples[..i + 1])
    ensures BitEvents(samples[..i + 1]) == BitEvents(samples[..i]) + [ClockHigh, Sampled(samples[i]), ClockLow]
  {
    Pow2OfWord();
    Pow2Monotonic(i, WordBits);
    assert samples[..i + 1][..i] == samples[..i];
  }
}
