/**
 * The BPM aggregator of the pulse firmware (lab9, and its earlier lab7 form):
 * conversion of a captured pulse period to a BPM value (calc_bpm), the
 * five-slot circular history `bpm_array` with its write cursor `bpm_index`
 * (insert_bpm_array), the integer average of the occupied slots (get_avg),
 * and the gate that decides whether that average is reported (show_pulse).
 *
 * Floating-point values are modelled as exact reals. The history is first
 * described as a value (History) with its properties proved as lemmas; the
 * class BpmHistory then holds the global array and cursor and its methods
 * are proved against that description.
 */
module BpmAggregator {
  import opened Wrappers
  import opened MachineInts

  /** BPM_NUM: the number of slots of the history. */
  const Capacity: nat := 5
  /** Ticks of the 40 MHz wide timer per microsecond. */
  const TicksPerMicrosecond: nat := 40
  const MicrosecondsPerSecond: real := 1000000.0
  const SecondsPerMinute: real := 60.0
  /** Initial values of bpm_lower and bpm_upper in lab9; the literal bounds of lab7. */
  const DefaultLower: uint8 := 40
  const DefaultUpper: uint8 := 150

  // ---------------------------------------------------------------------
  // calc_bpm
  // ---------------------------------------------------------------------

  /**
   * calc_bpm: `time / 40` divides integers (both operands are integers);
   * the two following steps are floating point and are exact here. The
   * result is sixty times the period in seconds (whole microseconds), not
   * sixty divided by it: a longer period gives a larger value.
   */
  function CalcBpm(time: uint32): (r: real)
    ensures r * MicrosecondsPerSecond == SecondsPerMinute * (time / TicksPerMicrosecond) as real
    ensures 0.0 <= r <= 6442.45092
  {
    var micro := (time / TicksPerMicrosecond) as real;
    var sec := micro / MicrosecondsPerSecond;
    sec * SecondsPerMinute
  }

  lemma CalcBpmExamples()
    ensures CalcBpm(40_000_000) == 60.0
    ensures CalcBpm(0) == 0.0
    ensures CalcBpm(39) == 0.0
  {
  }

  /** The value depends on the period only through the whole microseconds `time / 40`. */
  lemma CalcBpmDependsOnMicroseconds(t1: uint32, t2: uint32)
    requires t1 / TicksPerMicrosecond == t2 / TicksPerMicrosecond
    ensures CalcBpm(t1) == CalcBpm(t2)
  {
  }

  /** A longer period never gives a smaller value. */
  lemma CalcBpmMonotonic(t1: uint32, t2: uint32)
    requires t1 <= t2
    ensures CalcBpm(t1) <= CalcBpm(t2)
  {
    assert t1 / TicksPerMicrosecond <= t2 / TicksPerMicrosecond;
  }

  /**
   * With the default bounds, the values insert_bpm_array can accept are
   * exactly those of periods from 26,666,680 up to (excluding) 100,000,000
   * ticks.
   */
  lemma CalcBpmAcceptedPeriods(t: uint32)
    ensures DefaultLower as real < CalcBpm(t) < DefaultUpper as real
            <==> 26_666_680 <= t < 100_000_000
  {
    var q := t / TicksPerMicrosecond;
    assert CalcBpm(t) == q as real * 3.0 / 50000.0;
    assert DefaultLower as real < CalcBpm(t) <==> 666_667 <= q;
    assert CalcBpm(t) < DefaultUpper as real <==> q < 2_500_000;
  }

  // ---------------------------------------------------------------------
  // The history as a value
  // ---------------------------------------------------------------------

  /** The contents of bpm_array and the value of bpm_index. */
  datatype History = History(slots: seq<real>, cursor: nat)
  {
    /** Five slots and a cursor that points at one of them. */
    predicate Shaped()
    {
      |slots| == Capacity && cursor < Capacity
    }

    /**
     * The value the duplicate test reads, `bpm_array[bpm_index - 1]`: the
     * slot before the cursor or, at cursor 0, where the unsigned index
     * reaches before the array, whatever word `outside` is stored there.
     */
    function Previous(outside: real): real
      requires Shaped()
    {
      if cursor == 0 then outside else slots[cursor - 1]
    }

    /** The test of insert_bpm_array: strictly between the bounds and not the previous value. */
    predicate Accepts(a: real, lower: uint8, upper: uint8, outside: real)
      requires Shaped()
    {
      a < upper as real && a > lower as real && a != Previous(outside)
    }

    /** insert_bpm_array. */
    function Insert(a: real, lower: uint8, upper: uint8, outside: real): (r: History)
      requires Shaped()
      ensures r.Shaped()
      ensures Accepts(a, lower, upper, outside) ==>
                && r.cursor == (cursor + 1) % Capacity
                && r.slots[cursor] == a
                && forall k :: 0 <= k < Capacity && k != cursor ==> r.slots[k] == slots[k]
      ensures !Accepts(a, lower, upper, outside) ==> r == this
    {
      if Accepts(a, lower, upper, outside) then
        History(slots[cursor := a], if cursor < Capacity - 1 then cursor + 1 else 0)
      else
        this
    }
  }

  /** The zero-initialised global array and cursor. */
  const Empty: History := History([0.0, 0.0, 0.0, 0.0, 0.0], 0)

  /** Every slot is the empty sentinel 0 or lies strictly between the bounds. */
  predicate InRange(slots: seq<real>, lower: uint8, upper: uint8)
  {
    forall k :: 0 <= k < |slots| ==> slots[k] == 0.0 || lower as real < slots[k] < upper as real
  }

  /** The invariant of the history. */
  predicate ValidHistory(h: History, lower: uint8, upper: uint8)
  {
    h.Shaped() && InRange(h.slots, lower, upper)
  }

  /** An insert changes the history exactly when its test accepts the value. */
  lemma InsertChangesIffAccepted(h: History, a: real, lower: uint8, upper: uint8, outside: real)
    requires h.Shaped()
    ensures h.Insert(a, lower, upper, outside) != h
            <==> lower as real < a < upper as real && a != h.Previous(outside)
  {
    if h.Accepts(a, lower, upper, outside) {
      assert h.Insert(a, lower, upper, outside).cursor != h.cursor;
    }
  }

  lemma InsertKeepsInvariant(h: History, a: real, lower: uint8, upper: uint8, outside: real)
    requires ValidHistory(h, lower, upper)
    ensures ValidHistory(h.Insert(a, lower, upper, outside), lower, upper)
  {
  }

  /** A run of inserts, one per call of show_bpm; `outsides` are the words read at cursor 0. */
  function InsertAll(h: History, values: seq<real>, outsides: seq<real>, lower: uint8, upper: uint8): (r: History)
    requires h.Shaped() && |outsides| == |values|
    ensures r.Shaped()
    decreases |values|
  {
    if values == [] then h
    else InsertAll(h.Insert(values[0], lower, upper, outsides[0]), values[1..], outsides[1..], lower, upper)
  }

  lemma {:induction false} InsertAllKeepsInvariant(h: History, values: seq<real>, outsides: seq<real>, lower: uint8, upper: uint8)
    requires ValidHistory(h, lower, upper) && |outsides| == |values|
    ensures ValidHistory(InsertAll(h, values, outsides, lower, upper), lower, upper)
    decreases |values|
  {
    if values != [] {
      InsertKeepsInvariant(h, values[0], lower, upper, outsides[0]);
      InsertAllKeepsInvariant(h.Insert(values[0], lower, upper, outsides[0]), values[1..], outsides[1..], lower, upper);
    }
  }

  /**
   * From the zero-initialised array, after any sequence of inserts, the
   * cursor is in [0, 5) and every non-zero slot lies strictly between the
   * bounds.
   */
  lemma HistoryStaysInRange(values: seq<real>, outsides: seq<real>, lower: uint8, upper: uint8)
    requires |outsides| == |values|
    ensures var h := InsertAll(Empty, values, outsides, lower, upper);
            h.cursor < Capacity && InRange(h.slots, lower, upper)
  {
    InsertAllKeepsInvariant(Empty, values, outsides, lower, upper);
  }

  /** Away from cursor 0, an accepted value differs from the slot written just before it. */
  lemma AcceptedDiffersFromPredecessor(h: History, a: real, lower: uint8, upper: uint8, outside: real)
    requires h.Shaped() && h.cursor != 0 && h.Accepts(a, lower, upper, outside)
    ensures var r := h.Insert(a, lower, upper, outside);
            r.slots[h.cursor] != r.slots[h.cursor - 1]
  {
  }

  /**
   * Inserting the same value twice in a row stores it at most once, unless
   * the first insert writes the last slot (see the next lemma).
   */
  lemma RepeatedInsertIsNoop(h: History, a: real, lower: uint8, upper: uint8, outside: real)
    requires h.Shaped() && h.cursor != Capacity - 1
    ensures var once := h.Insert(a, lower, upper, outside);
            once.Insert(a, lower, upper, outside) == once
  {
  }

  /**
   * At cursor 0 the duplicate test does not read slot 4, so a value equal to
   * the last slot is stored again, and a value repeated across the wrap is
   * stored twice unless the word before the array happens to equal it (here
   * that word is 0).
   */
  lemma WrapAroundStoresDuplicates()
    ensures var h := History([61.0, 62.0, 63.0, 64.0, 70.0], 0);
            h.Accepts(70.0, DefaultLower, DefaultUpper, 0.0)
            && h.Insert(70.0, DefaultLower, DefaultUpper, 0.0).slots[0] == 70.0
    ensures var h := History([61.0, 62.0, 63.0, 64.0, 65.0], 4);
            var twice := h.Insert(70.0, DefaultLower, DefaultUpper, 0.0).Insert(70.0, DefaultLower, DefaultUpper, 0.0);
            twice.slots[0] == 70.0 && twice.slots[4] == 70.0
  {
  }

  // ---------------------------------------------------------------------
  // get_avg
  // ---------------------------------------------------------------------

  /** The number of occupied (non-zero) slots. */
  function NonZeroCount(s: seq<real>): (n: nat)
    ensures n <= |s|
    ensures n == 0 <==> forall k :: 0 <= k < |s| ==> s[k] == 0.0
  {
    if s == [] then 0
    else NonZeroCount(s[..|s| - 1]) + (if s[|s| - 1] != 0.0 then 1 else 0)
  }

  /**
   * The uint32_t sum of get_avg: each occupied slot added to an integer sum
   * and the result truncated, that is, the sum of the slots' floors.
   */
  function FloorSum(s: seq<real>): int
  {
    if s == [] then 0
    else FloorSum(s[..|s| - 1]) + (if s[|s| - 1] != 0.0 then s[|s| - 1].Floor else 0)
  }

  /**
   * The value get_avg returns: the integer quotient of the sum by the
   * number of occupied slots; None where the source divides by zero.
   */
  function AverageOf(s: seq<real>): (r: Option<int>)
    ensures r.None? <==> forall k :: 0 <= k < |s| ==> s[k] == 0.0
    ensures r.Some? ==> NonZeroCount(s) * r.value <= FloorSum(s) < NonZeroCount(s) * (r.value + 1)
  {
    var n := NonZeroCount(s);
    if n == 0 then None else Some(FloorSum(s) / n)
  }

  /** The count and the sum of a five-slot history, slot by slot. */
  lemma FiveSlots(a: real, b: real, c: real, d: real, e: real)
    ensures var s := [a, b, c, d, e];
            && NonZeroCount(s) == Occupied(a) + Occupied(b) + Occupied(c) + Occupied(d) + Occupied(e)
            && FloorSum(s) == FloorOf(a) + FloorOf(b) + FloorOf(c) + FloorOf(d) + FloorOf(e)
  {
    assert [a][..0] == [];
    assert NonZeroCount([a]) == Occupied(a) && FloorSum([a]) == FloorOf(a);
    assert [a, b][..1] == [a];
    assert NonZeroCount([a, b]) == Occupied(a) + Occupied(b);
    assert FloorSum([a, b]) == FloorOf(a) + FloorOf(b);
    assert [a, b, c][..2] == [a, b];
    assert NonZeroCount([a, b, c]) == Occupied(a) + Occupied(b) + Occupied(c);
    assert FloorSum([a, b, c]) == FloorOf(a) + FloorOf(b) + FloorOf(c);
    assert [a, b, c, d][..3] == [a, b, c];
    assert NonZeroCount([a, b, c, d]) == Occupied(a) + Occupied(b) + Occupied(c) + Occupied(d);
    assert FloorSum([a, b, c, d]) == FloorOf(a) + FloorOf(b) + FloorOf(c) + FloorOf(d);
    assert [a, b, c, d, e][..4] == [a, b, c, d];
  }

  function Occupied(x: real): nat { if x != 0.0 then 1 else 0 }

  function FloorOf(x: real): int { if x != 0.0 then x.Floor else 0 }

  lemma AverageExamples()
    ensures AverageOf([60.0, 0.0, 0.0, 0.0, 0.0]) == Some(60)
    ensures AverageOf([60.0, 80.0, 0.0, 0.0, 0.0]) == Some(70)
    ensures AverageOf([60.5, 80.9, 0.0, 0.0, 0.0]) == Some(70)
    ensures AverageOf([0.0, 0.0, 0.0, 0.0, 0.0]) == None
  {
    FiveSlots(60.0, 0.0, 0.0, 0.0, 0.0);
    FiveSlots(60.0, 80.0, 0.0, 0.0, 0.0);
    FiveSlots(60.5, 80.9, 0.0, 0.0, 0.0);
    assert (60.5).Floor == 60 && (80.9).Floor == 80;
  }

  lemma {:induction false} FloorSumBounds(s: seq<real>, lower: uint8, upper: uint8)
    requires InRange(s, lower, upper)
    ensures lower * NonZeroCount(s) <= FloorSum(s) <= (upper - 1) * NonZeroCount(s)
  {
    if s != [] {
      var init, x := s[..|s| - 1], s[|s| - 1];
      assert InRange(init, lower, upper) by {
        forall k | 0 <= k < |init| ensures init[k] == 0.0 || lower as real < init[k] < upper as real {
          assert init[k] == s[k];
        }
      }
      FloorSumBounds(init, lower, upper);
      assert NonZeroCount(s) == NonZeroCount(init) + Occupied(x);
      assert FloorSum(s) == FloorSum(init) + FloorOf(x);
      BoundsGrow(NonZeroCount(init), FloorSum(init), lower, upper - 1, x);
    }
  }

  /** Adding one slot to a sum that lies between lo and hi times the count keeps it there. */
  lemma BoundsGrow(n0: nat, sum0: int, lo: int, hi: int, x: real)
    requires lo * n0 <= sum0 <= hi * n0
    requires x != 0.0 ==> lo as real < x < (hi + 1) as real
    ensures lo * (n0 + Occupied(x)) <= sum0 + FloorOf(x) <= hi * (n0 + Occupied(x))
  {
    if x != 0.0 {
      assert lo <= x.Floor <= hi;
      assert lo * (n0 + 1) == lo * n0 + lo;
      assert hi * (n0 + 1) == hi * n0 + hi;
    }
  }

  /**
   * Under the invariant the average is undefined exactly when every slot is
   * empty, and otherwise lies between the lower bound and one below the
   * upper bound.
   */
  lemma AverageWithinBounds(h: History, lower: uint8, upper: uint8)
    requires ValidHistory(h, lower, upper)
    ensures AverageOf(h.slots) == None <==> forall k :: 0 <= k < Capacity ==> h.slots[k] == 0.0
    ensures AverageOf(h.slots).Some? ==> lower <= AverageOf(h.slots).value <= upper - 1
  {
    var n := NonZeroCount(h.slots);
    if n != 0 {
      var sum := FloorSum(h.slots);
      FloorSumBounds(h.slots, lower, upper);
      DivisionBounds(sum, n, lower, upper - 1);
    }
  }

  lemma DivisionBounds(sum: int, n: int, lo: int, hi: int)
    requires n > 0 && lo * n <= sum <= hi * n
    ensures lo <= sum / n <= hi
  {
    var q, r := sum / n, sum % n;
    assert sum == q * n + r && 0 <= r < n;
    assert (q + 1) * n == q * n + n;
    FactorLess(lo, q + 1, n);
    FactorLess(q, hi + 1, n);
  }

  /** For a positive factor, a smaller product means a smaller multiplicand. */
  lemma FactorLess(a: int, b: int, n: nat)
    requires n > 0 && a * n < b * n
    ensures a < b
  {
    if a >= b {
      ProductMonotonic(b, a, n);
      assert false;
    }
  }

  lemma {:induction false} ProductMonotonic(x: int, y: int, n: nat)
    requires x <= y
    ensures x * n <= y * n
  {
    if n > 0 {
      ProductMonotonic(x, y, n - 1);
      assert x * n == x * (n - 1) + x && y * n == y * (n - 1) + y;
    }
  }

  // ---------------------------------------------------------------------
  // show_pulse
  // ---------------------------------------------------------------------

  /** The test of show_pulse: the average lies strictly between the bounds. */
  predicate Reported(avg: Option<int>, lower: uint8, upper: uint8)
  {
    avg.Some? && avg.value > lower && avg.value < upper
  }

  /**
   * Under the invariant show_pulse's upper test never fails: the average is
   * reported exactly when it is defined and above the lower bound.
   */
  lemma ReportedIffAboveLower(h: History, lower: uint8, upper: uint8)
    requires ValidHistory(h, lower, upper)
    ensures Reported(AverageOf(h.slots), lower, upper)
            <==> AverageOf(h.slots).Some? && AverageOf(h.slots).value > lower
  {
    AverageWithinBounds(h, lower, upper);
  }

  /** A history holding only admissible values can still average to the lower bound, and is not reported. */
  lemma LowAverageIsNotReported()
    ensures ValidHistory(History([40.5, 0.0, 0.0, 0.0, 0.0], 1), DefaultLower, DefaultUpper)
    ensures AverageOf([40.5, 0.0, 0.0, 0.0, 0.0]) == Some(40)
    ensures !Reported(AverageOf([40.5, 0.0, 0.0, 0.0, 0.0]), DefaultLower, DefaultUpper)
  {
    FiveSlots(40.5, 0.0, 0.0, 0.0, 0.0);
    assert (40.5).Floor == 40;
  }

  /** The history after one show_pulse: one insert of calc_bpm when the current average passes the test. */
  function PulseShown(h: History, time: uint32, lower: uint8, upper: uint8, outside: real): (r: History)
    requires h.Shaped()
    ensures r.Shaped()
  {
    if Reported(AverageOf(h.slots), lower, upper) then h.Insert(CalcBpm(time), lower, upper, outside) else h
  }

  /** The history after show_pulse is called once per captured period in `times`. */
  function PulseShownAll(h: History, times: seq<uint32>, lower: uint8, upper: uint8, outside: real): (r: History)
    requires h.Shaped()
    ensures r.Shaped()
    decreases |times|
  {
    if times == [] then h else PulseShownAll(PulseShown(h, times[0], lower, upper, outside), times[1..], lower, upper, outside)
  }

  /**
   * show_pulse only inserts once the average already passes its test, and the
   * power-up history has no average: from power-up, no number of calls ever
   * stores a value or reports one.
   */
  lemma {:induction false} PowerUpPulseNeverReported(times: seq<uint32>, lower: uint8, upper: uint8, outside: real)
    ensures !Reported(AverageOf(Empty.slots), lower, upper)
    ensures PulseShownAll(Empty, times, lower, upper, outside) == Empty
    decreases |times|
  {
    assert Empty.slots[0] == 0.0 && Empty.slots[1] == 0.0 && Empty.slots[2] == 0.0;
    assert Empty.slots[3] == 0.0 && Empty.slots[4] == 0.0;
    assert AverageOf(Empty.slots) == None;
    if times != [] {
      assert PulseShown(Empty, times[0], lower, upper, outside) == Empty;
      PowerUpPulseNeverReported(times[1..], lower, upper, outside);
    }
  }

  /** What show_pulse writes to the console. */
  datatype Report = AverageBpm(avg: Option<int>) | NotDetected

  // ---------------------------------------------------------------------
  // The global history
  // ---------------------------------------------------------------------

  /** The global `bpm_array`, `bpm_index` and the bounds `bpm_lower`, `bpm_upper`. */
  class BpmHistory {
    var slots: array<real>
    var index: nat
    const lower: uint8
    const upper: uint8

    ghost predicate Valid()
      reads this, slots
    {
      slots.Length == Capacity && ValidHistory(Model(), lower, upper)
    }

    /** The value of the history. */
    function Model(): History
      reads this, slots
    {
      History(slots[..], index)
    }

    /** Zero-initialised globals; lab9 and lab7 use the bounds 40 and 150. */
    constructor (lower: uint8, upper: uint8)
      ensures Valid() && fresh(slots)
      ensures this.lower == lower && this.upper == upper && Model() == Empty
    {
      this.lower := lower;
      this.upper := upper;
      slots := new real[Capacity](_ => 0.0);
      index := 0;
      new;
      assert slots[..] == Empty.slots;
    }

    /** insert_bpm_array. */
    method Insert(a: real, outside: real)
      requires Valid()
      modifies this, slots
      ensures Valid() && slots == old(slots)
      ensures Model() == old(Model()).Insert(a, lower, upper, outside)
    {
      ghost var before := Model();
      var previous := if index == 0 then outside else slots[index - 1];
      if a < upper as real && a > lower as real && a != previous {
        slots[index] := a;
        if index < Capacity - 1 {
          index := index + 1;
        } else {
          index := 0;
        }
      }
      assert Model() == before.Insert(a, lower, upper, outside);
      InsertKeepsInvariant(before, a, lower, upper, outside);
    }

    /** get_avg: the loop over the slots accumulating `sum` and `num_vals`. */
    method GetAvg() returns (avg: Option<int>)
      requires Valid()
      ensures avg == AverageOf(slots[..])
    {
      var sum: uint32 := 0;
      var numVals: nat := 0;
      for i := 0 to Capacity
        invariant sum == FloorSum(slots[..i])
        invariant numVals == NonZeroCount(slots[..i])
        invariant sum <= 255 * i
      {
        assert slots[..i + 1][..i] == slots[..i];
        if slots[i] != 0.0 {
          assert slots[i] == Model().slots[i];
          sum := (sum as real + slots[i]).Floor;
          numVals := numVals + 1;
        }
      }
      assert slots[..Capacity] == slots[..];
      if numVals == 0 {
        avg := None;
      } else {
        avg := Some(sum / numVals);
      }
    }

    /** show_bpm: one insert of calc_bpm(time), then the average it prints. */
    method ShowBpm(time: uint32, outside: real) returns (avg: Option<int>, bpm: real)
      requires Valid()
      modifies this, slots
      ensures Valid() && slots == old(slots)
      ensures bpm == CalcBpm(time)
      ensures Model() == old(Model()).Insert(CalcBpm(time), lower, upper, outside)
      ensures avg == AverageOf(slots[..])
    {
      bpm := CalcBpm(time);
      Insert(bpm, outside);
      avg := GetAvg();
    }

    /**
     * show_pulse: reports through show_bpm when the current average is
     * strictly between the bounds, and "(not detected)" otherwise. The
     * source divides by zero on an empty history; the model takes the
     * not-detected branch there.
     */
    method ShowPulse(time: uint32, outside: real) returns (report: Report)
      requires Valid()
      modifies this, slots
      ensures Valid() && slots == old(slots)
      ensures Reported(AverageOf(old(slots[..])), lower, upper) ==>
                && Model() == old(Model()).Insert(CalcBpm(time), lower, upper, outside)
                && report == AverageBpm(AverageOf(slots[..]))
      ensures !Reported(AverageOf(old(slots[..])), lower, upper) ==>
                Model() == old(Model()) && report == NotDetected
      ensures Model() == PulseShown(old(Model()), time, lower, upper, outside)
    {
      var avg := GetAvg();
      if avg.Some? && avg.value > lower && avg.value < upper {
        var shown, _ := ShowBpm(time, outside);
        report := AverageBpm(shown);
      } else {
        report := NotDetected;
      }
    }
  }
}
