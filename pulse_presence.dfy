/**
 * The finger-presence detector of the pulse firmware (pulse_check, run by
 * the 1 Hz timer-4 interrupt in lab7 and lab9): one ADC reading with the
 * LED on and one with it off decide whether a finger covers the sensor.
 * The state is the pair of globals `pulse_active` and
 * `finger_missing_count`, plus the LED bit of port C.
 */
module PulsePresence {
  import opened MachineInts

  /** The brightness a lit finger must exceed. */
  const PresenceThreshold: uint32 := 1500
  /** By how much the unlit reading must exceed the lit one. */
  const ContrastThreshold: int := 80
  /** The miss count above which presence is cleared. */
  const MissLimit: uint32 := 2

  /** `pulse_active`, `finger_missing_count` and whether the red LED is on. */
  datatype PresenceState = PresenceState(active: bool, misses: uint32, led: bool)

  /** The two ADC conversions of one tick: LED on, then LED off. */
  datatype Sample = Sample(lightOn: uint32, lightOff: uint32)

  /** The zero-initialised globals with the LED off. */
  const Initial: PresenceState := PresenceState(false, 0, false)

  /** `int difference = light_off - light_on`: unsigned subtraction read back as int32. */
  function Difference(x: Sample): (d: int)
    ensures -TwoTo31 <= d < TwoTo31
    ensures (d - (x.lightOff - x.lightOn)) % TwoTo32 == 0
  {
    ToInt32(SubU32(x.lightOff, x.lightOn))
  }

  /** For readings in the int32 range, as every 12-bit ADC result is, the difference is exact. */
  lemma DifferenceOfAdcReadings(x: Sample)
    requires x.lightOn < TwoTo31 && x.lightOff < TwoTo31
    ensures Difference(x) == x.lightOff - x.lightOn
  {
    var d, e := Difference(x), x.lightOff - x.lightOn;
    var m := (d - e) / TwoTo32;
    assert d - e == m * TwoTo32;
    assert -TwoTo32 < d - e < TwoTo32;
  }

  /** The sample shows a finger: bright enough under the LED and enough contrast. */
  predicate Qualifies(x: Sample)
  {
    x.lightOn > PresenceThreshold && Difference(x) > ContrastThreshold
  }

  lemma QualifiesExamples()
    ensures Qualifies(Sample(1600, 1700))
    ensures !Qualifies(Sample(1000, 1050))
    ensures !Qualifies(Sample(1600, 1680))
    ensures !Qualifies(Sample(1600, 100))
  {
  }

  /**
   * pulse_check on state `s` and sample `x`: the LED shows whether the
   * sample qualified; presence holds after a qualifying sample, or while
   * present with at most two misses counted; only a miss while present
   * counts.
   */
  function Step(s: PresenceState, x: Sample): (r: PresenceState)
    ensures r.led <==> Qualifies(x)
    ensures r.active <==> Qualifies(x) || (s.active && r.misses <= MissLimit)
    ensures r.misses == (if s.active && !Qualifies(x) then IncU32(s.misses) else s.misses)
  {
    if Qualifies(x) then
      PresenceState(true, s.misses, true)
    else if s.active then
      var misses := IncU32(s.misses);
      PresenceState(!(misses > MissLimit), misses, false)
    else
      PresenceState(false, s.misses, false)
  }

  /** Ticks in order. */
  function Run(s: PresenceState, xs: seq<Sample>): PresenceState
    decreases |xs|
  {
    if xs == [] then s else Run(Step(s, xs[0]), xs[1..])
  }

  /**
   * A qualifying sample sets presence and leaves the miss count as it was:
   * the count is never reset.
   */
  lemma QualifyingSampleKeepsCount(s: PresenceState, x: Sample)
    requires Qualifies(x)
    ensures Step(s, x).active && Step(s, x).misses == s.misses
  {
  }

  /** A non-qualifying sample while absent changes no state. */
  lemma MissWhileAbsentChangesNothing(s: PresenceState, x: Sample)
    requires !s.active && !Qualifies(x)
    ensures Step(s, x).active == s.active && Step(s, x).misses == s.misses
  {
  }

  /**
   * Hysteresis from a fresh count: a present finger survives two
   * non-qualifying samples and is cleared by the third.
   */
  lemma ThirdMissClears(s: PresenceState, m1: Sample, m2: Sample, m3: Sample)
    requires s.active && s.misses == 0
    requires !Qualifies(m1) && !Qualifies(m2) && !Qualifies(m3)
    ensures Run(s, [m1]).active && Run(s, [m1, m2]).active
    ensures !Run(s, [m1, m2, m3]).active && Run(s, [m1, m2, m3]).misses == 3
  {
    var s1 := Step(s, m1);
    var s2 := Step(s1, m2);
    var s3 := Step(s2, m3);
    assert s1.active && s1.misses == 1;
    assert s2.active && s2.misses == 2;
    assert !s3.active && s3.misses == 3;
    assert [m1][1..] == [] && [m1, m2][1..] == [m2] && [m1, m2, m3][1..] == [m2, m3] && [m2, m3][1..] == [m3];
    assert Run(s, [m1]) == Run(s1, []) == s1;
    assert Run(s, [m1, m2]) == Run(s1, [m2]) == Run(s2, []) == s2;
    assert Run(s, [m1, m2, m3]) == Run(s1, [m2, m3]) == Run(s2, [m3]) == s3;
  }

  /**
   * Once the count exceeds the limit, a single miss clears presence again
   * (until the uint32 count wraps).
   */
  lemma SingleMissClearsAfterRemoval(s: PresenceState, x: Sample)
    requires s.active && MissLimit < s.misses < TwoTo32 - 1
    requires !Qualifies(x)
    ensures !Step(s, x).active
  {
  }

  /**
   * From power-up: contact, three misses, contact again; then one miss is
   * enough to clear presence.
   */
  lemma SecondRemovalTakesOneMiss(q1: Sample, m1: Sample, m2: Sample, m3: Sample, q2: Sample, m4: Sample)
    requires Qualifies(q1) && Qualifies(q2)
    requires !Qualifies(m1) && !Qualifies(m2) && !Qualifies(m3) && !Qualifies(m4)
    ensures Run(Initial, [q1, m1, m2, m3, q2]).active
    ensures !Run(Initial, [q1, m1, m2, m3, q2, m4]).active
  {
    var s1 := Step(Initial, q1);
    ThirdMissClears(s1, m1, m2, m3);
    var s4 := Run(s1, [m1, m2, m3]);
    RunAppend(Initial, [q1], [m1, m2, m3]);
    assert [q1] + [m1, m2, m3] == [q1, m1, m2, m3];
    RunAppend(Initial, [q1, m1, m2, m3], [q2]);
    assert [q1, m1, m2, m3] + [q2] == [q1, m1, m2, m3, q2];
    RunAppend(Initial, [q1, m1, m2, m3, q2], [m4]);
    assert [q1, m1, m2, m3, q2] + [m4] == [q1, m1, m2, m3, q2, m4];
    SingleMissClearsAfterRemoval(Step(s4, q2), m4);
  }

  lemma {:induction false} RunAppend(s: PresenceState, xs: seq<Sample>, ys: seq<Sample>)
    ensures Run(s, xs + ys) == Run(Run(s, xs), ys)
    decreases |xs|
  {
    if xs != [] {
      assert (xs + ys)[0] == xs[0] && (xs + ys)[1..] == xs[1..] + ys;
      RunAppend(Step(s, xs[0]), xs[1..], ys);
    } else {
      assert xs + ys == ys;
    }
  }

  /** The miss count only grows: over ticks that cannot wrap it, it never decreases. */
  lemma {:induction false} MissCountNeverDecreases(s: PresenceState, xs: seq<Sample>)
    requires s.misses + |xs| < TwoTo32
    ensures s.misses <= Run(s, xs).misses <= s.misses + |xs|
    decreases |xs|
  {
    if xs != [] {
      var t := Step(s, xs[0]);
      assert s.misses <= t.misses <= s.misses + 1;
      MissCountNeverDecreases(t, xs[1..]);
    }
  }

  /** The globals `pulse_active` and `finger_missing_count` and the LED bit of port C. */
  class Detector {
    var pulseActive: bool
    var fingerMissingCount: uint32
    var led: bool

    function State(): PresenceState
      reads this
    {
      PresenceState(pulseActive, fingerMissingCount, led)
    }

    constructor ()
      ensures State() == Initial
    {
      pulseActive := false;
      fingerMissingCount := 0;
      led := false;
    }

    /** pulse_check, with the two ADC readings passed in. */
    method PulseCheck(lightOn: uint32, lightOff: uint32)
      modifies this
      ensures State() == Step(old(State()), Sample(lightOn, lightOff))
    {
      led := true;   // the LED is lit for the first conversion
      led := false;  // and turned off for the second
      var difference := ToInt32(SubU32(lightOff, lightOn));
      if lightOn > PresenceThreshold && difference > ContrastThreshold {
        pulseActive := true;
        led := true;
      } else {
        if pulseActive {
          fingerMissingCount := IncU32(fingerMissingCount);
          if fingerMissingCount > MissLimit {
            pulseActive := false;
            led := false;
          }
        }
      }
    }
  }
}
