/** The duty choice of `loop`: display, voltage sample or command poll,
    decided from `micros()` timestamps with unsigned 32-bit subtraction. */
module Scheduler {

  const Modulus: int := 0x1_0000_0000

  /** `uint32_t`. */
  type U32 = x: int | 0 <= x < Modulus

  /** Microseconds between display ticks and between voltage samples. */
  const FramePeriod: int := 16600
  const SamplePeriod: int := 1000000

  datatype Duty = Display | Sample | Poll

  /** `now - since` in `uint32_t` arithmetic: the one 32-bit value that,
      added to `since` with wrap-around, gives `now`. */
  function Elapsed(now: U32, since: U32): (d: U32)
    ensures (since + d) % Modulus == now
  {
    (now - since) % Modulus
  }

  /** Display when more than a frame period has passed since the last
      display tick; otherwise sample when more than a sample period has
      passed since the last sample; otherwise poll the command channel. */
  function ChooseDuty(now: U32, last: U32, readAnalog: U32): Duty {
    if Elapsed(now, last) > FramePeriod then Display
    else if Elapsed(now, readAnalog) > SamplePeriod then Sample
    else Poll
  }

  /** The elapsed time is recovered exactly even when the microsecond
      counter wraps around between the two readings. */
  lemma ElapsedAcrossWrap(since: U32, d: U32)
    ensures Elapsed(((since + d) % Modulus) as U32, since) == d
  {
    var now := (since + d) % Modulus;
    if since + d < Modulus {
      assert now == since + d;
    } else {
      assert now == since + d - Modulus;
      assert now - since == d - Modulus;
    }
  }

  /** Priority, in real elapsed times: with `d` microseconds since the
      last display tick and `e` since the last sample, both read at the
      same `now` across any wrap of the counter, the display runs exactly
      when more than a frame period has passed; otherwise a sample exactly
      when more than a sample period has passed; otherwise the command
      poll. */
  lemma DutyTiming(last: U32, readAnalog: U32, d: U32, e: U32)
    requires (last + d) % Modulus == (readAnalog + e) % Modulus
    ensures var now := ((last + d) % Modulus) as U32;
      && (ChooseDuty(now, last, readAnalog) == Display <==> d > FramePeriod)
      && (ChooseDuty(now, last, readAnalog) == Sample <==> d <= FramePeriod && e > SamplePeriod)
      && (ChooseDuty(now, last, readAnalog) == Poll <==> d <= FramePeriod && e <= SamplePeriod)
  {
    ElapsedAcrossWrap(last, d);
    ElapsedAcrossWrap(readAnalog, e);
  }
}
