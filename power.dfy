/** The power hysteresis of `stepVoltageCheck` and `stepLowVoltage`: each
    voltage sample enables or disables the LED supply, with a debounce
    counter on the low side. */
module Power {
  import opened AppState

  /** A sample after calibration: below 11.8 V, or at least 11.8 V and
      dimmed when also below 14.0 V. */
  datatype Reading = Low | Ok(dimmed: bool)

  /** The voltage-divider calibration applied to a raw ADC count. */
  function Volts(raw: int): real {
    raw as real * 12.9 / 719.0
  }

  /** Largest raw counts that read as below 11.8 V and below 14.0 V. */
  const LowRawMax: int := 657
  const DimRawMax: int := 780

  /** Classifies a raw sample by integer thresholds; the contract shows that
      they decide exactly the two comparisons of the calibrated voltage. */
  function Classify(raw: int): (r: Reading)
    ensures r == Low <==> Volts(raw) < 11.8
    ensures r.Ok? ==> (r.dimmed <==> Volts(raw) < 14.0)
  {
    if raw <= LowRawMax then Low else Ok(raw <= DimRawMax)
  }

  /** `stepLowVoltage`: back to Start-up, count the low sample; an enabled
      supply turns off on the sixth count, a disabled one re-arms with the
      counter at 4 on the eleventh. */
  function LowVoltage(s: State): (r: State)
    requires Inv(s)
    ensures Inv(r)
  {
    var counted := s.(mode := Startup, phase := 0, voltageCount := s.voltageCount + 1);
    if s.enabled then
      if counted.voltageCount > 5 then counted.(enabled := false, voltageCount := 0) else counted
    else
      if counted.voltageCount > 10 then counted.(enabled := true, voltageCount := 4) else counted
  }

  /** Whether `stepLowVoltage` clears the frame. */
  predicate LowVoltageClears(s: State) {
    s.enabled && s.suppressLights
  }

  /** The globals after one `stepVoltageCheck` with reading `r`. */
  function AfterSample(s: State, r: Reading): (t: State)
    requires Inv(s)
    ensures Inv(t)
  {
    match r
    case Low => LowVoltage(s.(suppressLights := true))
    case Ok(dim) => s.(suppressLights := false, enabled := true, voltageCount := 0, dimmed := dim)
  }

  /** Whether `stepVoltageCheck` clears the frame: a low sample while the
      supply is on (the lights have just been suppressed). */
  predicate SampleClears(s: State, r: Reading) {
    r == Low && LowVoltageClears(s.(suppressLights := true))
  }

  /** A sequence of samples, oldest first. */
  function Samples(s: State, rs: seq<Reading>): (t: State)
    requires Inv(s)
    ensures Inv(t)
    decreases |rs|
  {
    if rs == [] then s else Samples(AfterSample(s, rs[0]), rs[1..])
  }

  function Lows(n: nat): (rs: seq<Reading>)
    ensures |rs| == n && forall i :: 0 <= i < n ==> rs[i] == Low
  {
    seq(n, _ => Low)
  }

  /** What one sample does to the flags the rest of the firmware reads: an
      Ok sample always enables, clears the counter and releases the lights;
      a Low sample always suppresses the lights and restarts the animation;
      neither touches `animating` or `measuring`. */
  lemma SampleEffects(s: State, r: Reading)
    requires Inv(s)
    ensures r.Ok? ==> AfterSample(s, r).enabled && AfterSample(s, r).voltageCount == 0
    ensures r.Ok? ==> !AfterSample(s, r).suppressLights && AfterSample(s, r).dimmed == r.dimmed
    ensures r.Ok? ==> AfterSample(s, r).mode == s.mode && AfterSample(s, r).phase == s.phase
    ensures r == Low ==> AfterSample(s, r).suppressLights && AfterSample(s, r).dimmed == s.dimmed
    ensures r == Low ==> AfterSample(s, r).mode == Startup && AfterSample(s, r).phase == 0
    ensures AfterSample(s, r).animating == s.animating && AfterSample(s, r).measuring == s.measuring
  {
  }

  /** Processing `a + b` is processing `a`, then `b`. */
  lemma {:induction false} SamplesAppend(s: State, a: seq<Reading>, b: seq<Reading>)
    requires Inv(s)
    ensures Samples(s, a + b) == Samples(Samples(s, a), b)
    decreases |a|
  {
    if a != [] {
      assert (a + b)[1..] == a[1..] + b;
      SamplesAppend(AfterSample(s, a[0]), a[1..], b);
    } else {
      assert a + b == b;
    }
  }

  /** One low sample while enabled, whatever the counter (it can exceed 5
      after 'e' re-enables a supply the low samples had been counting):
      the supply stays on, one count higher, exactly while the new count is
      at most 5, and otherwise goes off with the counter reset. */
  lemma EnabledLowStep(s: State)
    requires Inv(s) && s.enabled
    ensures AfterSample(s, Low).enabled <==> s.voltageCount + 1 <= 5
    ensures AfterSample(s, Low).enabled ==> AfterSample(s, Low).voltageCount == s.voltageCount + 1
    ensures !AfterSample(s, Low).enabled ==> AfterSample(s, Low).voltageCount == 0
  {
  }

  /** Low samples while enabled: the counter climbs by one per sample and
      the supply switches off, with the counter reset to 0, on the sample
      that takes it past 5 — and not before. */
  lemma {:induction false} LowsWhileEnabled(s: State, n: nat)
    requires Inv(s) && s.enabled && s.voltageCount <= 5
    requires s.voltageCount + n <= 6
    ensures s.voltageCount + n <= 5 ==> Samples(s, Lows(n)).enabled && Samples(s, Lows(n)).voltageCount == s.voltageCount + n
    ensures s.voltageCount + n == 6 ==> !Samples(s, Lows(n)).enabled && Samples(s, Lows(n)).voltageCount == 0
    decreases n
  {
    if n > 0 {
      var next := AfterSample(s, Low);
      assert Lows(n)[1..] == Lows(n - 1);
      if s.voltageCount + 1 <= 5 {
        LowsWhileEnabled(next, n - 1);
      } else {
        assert n == 1 && Lows(0) == [];
      }
    }
  }

  /** Low samples while disabled: the counter keeps climbing and the supply
      switches back on, with the counter at 4, on the sample that takes it
      past 10 — and not before. */
  lemma {:induction false} LowsWhileDisabled(s: State, n: nat)
    requires Inv(s) && !s.enabled
    requires s.voltageCount + n <= 11
    ensures s.voltageCount + n <= 10 ==> !Samples(s, Lows(n)).enabled && Samples(s, Lows(n)).voltageCount == s.voltageCount + n
    ensures s.voltageCount + n == 11 ==> Samples(s, Lows(n)).enabled && Samples(s, Lows(n)).voltageCount == 4
    decreases n
  {
    if n > 0 {
      var next := AfterSample(s, Low);
      assert Lows(n)[1..] == Lows(n - 1);
      if s.voltageCount + 1 <= 10 {
        LowsWhileDisabled(next, n - 1);
      } else {
        assert n == 1 && Lows(0) == [];
      }
    }
  }

  /** From enabled with a clear counter, exactly the sixth consecutive low
      sample disables the supply and resets the counter. */
  lemma SixthLowDisables(s: State, n: nat)
    requires Inv(s) && s.enabled && s.voltageCount == 0 && 1 <= n <= 6
    ensures Samples(s, Lows(n)).enabled <==> n < 6
    ensures n == 6 ==> Samples(s, Lows(n)).voltageCount == 0
  {
    LowsWhileEnabled(s, n);
  }

  /** `a` low samples followed by `b` more are `a + b` low samples. */
  lemma LowsAppend(s: State, a: nat, b: nat)
    requires Inv(s)
    ensures Samples(s, Lows(a + b)) == Samples(Samples(s, Lows(a)), Lows(b))
  {
    assert Lows(a) + Lows(b) == Lows(a + b);
    SamplesAppend(s, Lows(a), Lows(b));
  }

  /** From disabled with a clear counter, the eleventh consecutive low sample
      re-enables with the counter at 4, after which two more low samples —
      not one, not three — disable again. */
  lemma ReArmThenTwoLows(s: State)
    requires Inv(s) && !s.enabled && s.voltageCount == 0
    ensures forall n :: 1 <= n <= 10 ==> !Samples(s, Lows(n)).enabled
    ensures Samples(s, Lows(11)).enabled && Samples(s, Lows(11)).voltageCount == 4
    ensures Samples(s, Lows(12)).enabled && Samples(s, Lows(12)).voltageCount == 5
    ensures !Samples(s, Lows(13)).enabled && Samples(s, Lows(13)).voltageCount == 0
  {
    forall n | 1 <= n <= 10 ensures !Samples(s, Lows(n)).enabled {
      LowsWhileDisabled(s, n);
    }
    var armed := Samples(s, Lows(11));
    assert armed.enabled && armed.voltageCount == 4 by {
      LowsWhileDisabled(s, 11);
    }
    assert Samples(s, Lows(12)) == Samples(armed, Lows(1)) by {
      LowsAppend(s, 11, 1);
    }
    assert Samples(s, Lows(13)) == Samples(armed, Lows(2)) by {
      LowsAppend(s, 11, 2);
    }
    LowsWhileEnabled(armed, 1);
    LowsWhileEnabled(armed, 2);
  }
}
