/** The animation engine: per-mode colour generation (`dimPhase`, `gamma`,
    `stepLedStartup`, `stepLedRunning`, `stepAnimateStrip`) and the dispatch
    of `stepLeds`, as functions of the globals and the current frame. The
    class in module Controller performs the same steps in place and is
    proved against these functions. */
module Animation {
  import opened PixelMap
  import opened Color
  import opened AppState

  /** Trail brightness `d` pixels behind the start-up head: `255 >> d` for
      the first three, then a linear fade `40 - d` that never drops below 1. */
  function DimPhase(d: int): (v: int)
    requires 0 <= d
    ensures 1 <= v <= 255
    ensures d >= 1 ==> v <= 127
  {
    if d < 3 then ShiftRight(255, d)
    else
      var ret := 40 - d;
      if ret < 1 then 1 else ret
  }

  /** Logical right shift of a non-negative value. */
  function ShiftRight(x: nat, n: nat): nat {
    if n == 0 then x else ShiftRight(x / 2, n - 1)
  }

  /** The trail never brightens with distance from the head. */
  lemma DimPhaseNonIncreasing(d1: int, d2: int)
    requires 0 <= d1 <= d2
    ensures DimPhase(d1) >= DimPhase(d2)
  {
    if d1 < 3 && d2 < 3 {
      assert DimPhase(0) == 255 && DimPhase(1) == 127 && DimPhase(2) == 63;
    }
  }

  /** Quadratic brightness curve `v * v / 255`; `v * v` is never negative, so
      the source's truncating division agrees with Dafny's. */
  function Gamma(v: int): int {
    v * v / 255
  }

  /** Gamma maps bytes to bytes, fixes both ends and is monotone. */
  lemma GammaBounds(v: int)
    requires IsByte(v)
    ensures IsByte(Gamma(v))
    ensures v == 0 ==> Gamma(v) == 0
    ensures v == 255 ==> Gamma(v) == 255
  {
    assert v * v <= 255 * v <= 255 * 255;
  }

  lemma GammaMonotone(v: int, w: int)
    requires 0 <= v <= w
    ensures Gamma(v) <= Gamma(w)
  {
    assert v * v <= v * w <= w * w;
  }

  // ---------------------------------------------------------------- start-up

  /** Colour of logical pixel `i` of one channel when the head is at `p`:
      white at the head, a grey of `DimPhase` behind it, off ahead of it. */
  function StartupColor(p: int, i: int): int
    requires 0 <= i
  {
    if i == p then White
    else if i < p then Gray(DimPhase(p - i))
    else Off
  }

  /** The 42-pixel start-up pattern of one channel. */
  function StartupPattern(p: int): (pattern: seq<int>)
    ensures |pattern| == StripLength
  {
    seq(StripLength, i requires 0 <= i < StripLength => StartupColor(p, i))
  }

  /** Both channels carry the pattern: logical pixels `i` and `i + 42` of
      the doubled pattern are the colour of `i`. */
  lemma StartupPatternTwice(p: int, i: int)
    requires 0 <= i < StripLength
    ensures (StartupPattern(p) + StartupPattern(p))[i] == StartupColor(p, i)
    ensures (StartupPattern(p) + StartupPattern(p))[i + StripLength] == StartupColor(p, i)
  {
  }

  /** The whole frame of the start-up sweep: logical pixels `i` and `i + 42`
      show the same pattern, each written through the pixel order. */
  function StartupFrame(p: int): (f: seq<int>)
    ensures |f| == PixelCount
  {
    Scatter(StartupPattern(p) + StartupPattern(p))
  }

  /** Logical pixels `i` and `i + 42` share a colour, and that colour is the
      head, the trail or off according to where `i` lies. */
  lemma StartupFrameAt(p: int, i: int)
    requires 0 <= i < StripLength
    ensures IsIndex(Slot(i)) && IsIndex(Slot(i + StripLength))
    ensures StartupFrame(p)[Slot(i)] == StartupFrame(p)[Slot(i + StripLength)]
    ensures i == p ==> StartupFrame(p)[Slot(i)] == 0xff_ff_ff
    ensures i < p ==> 1 <= DimPhase(p - i) <= 127
    ensures i < p ==> StartupFrame(p)[Slot(i)] == Rgb(DimPhase(p - i), DimPhase(p - i), DimPhase(p - i))
    ensures i > p ==> StartupFrame(p)[Slot(i)] == 0
  {
    var logical := StartupPattern(p) + StartupPattern(p);
    ScatterAt(logical, i);
    ScatterAt(logical, i + StripLength);
    assert logical[i] == logical[i + StripLength] == StartupColor(p, i);
  }

  /** The head is the only white pixel, and the trail is dimmer the further
      it is behind the head. */
  lemma StartupTrail(p: int, i: int, j: int)
    requires 0 <= i < j <= p
    ensures StartupColor(p, j) == White <==> j == p
    ensures StartupColor(p, i) != White
    ensures Red(StartupColor(p, i)) <= Red(StartupColor(p, j))
  {
    var vi := DimPhase(p - i);
    RgbChannels(vi, vi, vi);
    RgbChannels(0xff, 0xff, 0xff);
    assert Red(StartupColor(p, i)) == vi;
    if j < p {
      var vj := DimPhase(p - j);
      RgbChannels(vj, vj, vj);
      DimPhaseNonIncreasing(p - j, p - i);
    }
  }

  // ----------------------------------------------------------------- running

  /** Intensity of the idle glow for the already incremented phase `q`:
      rising `gamma(4q + 3)` below 64, falling `gamma(319 - q)` up to 318,
      zero on the wrap tick; floored at 8, then halved when dimmed. */
  function RunningLevel(q: int, dimmed: bool): int {
    var base := if q < 64 then Gamma(q * 4 + 3) else if q < 64 + 256 - 1 then Gamma(64 + 256 - 1 - q) else 0;
    var floor := if base < 8 then 8 else base;
    if dimmed then floor / 2 else floor
  }

  /** The glow occupies the middle byte only (`color << 8`). */
  function RunningColor(q: int, dimmed: bool): int {
    RunningLevel(q, dimmed) * 0x100
  }

  /** All 84 slots show one colour. */
  function Uniform(c: int): (f: seq<int>)
    ensures |f| == PixelCount
  {
    seq(PixelCount, _ => c)
  }

  /** Never dark, never over a byte: [8,255] normally and [4,127] dimmed. */
  lemma RunningLevelBounds(q: int, dimmed: bool)
    requires 0 <= q
    ensures !dimmed ==> 8 <= RunningLevel(q, dimmed) <= 255
    ensures dimmed ==> 4 <= RunningLevel(q, dimmed) <= 127
  {
    if q < 64 {
      GammaBounds(q * 4 + 3);
    } else if q < 64 + 256 - 1 {
      GammaBounds(64 + 256 - 1 - q);
    }
  }

  /** The colour's only non-zero channel is the middle byte, holding the level. */
  lemma RunningColorChannels(q: int, dimmed: bool)
    requires 0 <= q
    ensures Red(RunningColor(q, dimmed)) == 0 && Blue(RunningColor(q, dimmed)) == 0
    ensures Green(RunningColor(q, dimmed)) == RunningLevel(q, dimmed)
  {
    RunningLevelBounds(q, dimmed);
    RgbChannels(0, RunningLevel(q, dimmed), 0);
    assert RunningColor(q, dimmed) == Rgb(0, RunningLevel(q, dimmed), 0);
  }

  /** Breathing: the level rises over phases [0,64), peaks at full
      brightness, and falls over [64,319). */
  lemma RunningBreathes(q1: int, q2: int, dimmed: bool)
    requires 0 <= q1 <= q2
    ensures q2 < 64 ==> RunningLevel(q1, dimmed) <= RunningLevel(q2, dimmed)
    ensures 64 <= q1 && q2 < 64 + 256 - 1 ==> RunningLevel(q1, dimmed) >= RunningLevel(q2, dimmed)
    ensures RunningLevel(63, false) == 255 && RunningLevel(64, false) == 255
  {
    if q2 < 64 {
      GammaMonotone(q1 * 4 + 3, q2 * 4 + 3);
    } else if 64 <= q1 && q2 < 64 + 256 - 1 {
      GammaMonotone(64 + 256 - 1 - q2, 64 + 256 - 1 - q1);
    }
  }

  // ------------------------------------------------------------ segment chase

  /** Logical pixel written at phase `p` of a chase over [lo,hi): the first
      half of the period walks the segment, the second half walks it again. */
  function StripTarget(lo: int, hi: int, p: int): (i: int)
    requires 0 <= lo < hi && 0 <= p < 2 * (hi - lo)
    ensures lo <= i < hi
    ensures i == lo + p % (hi - lo)
  {
    var d := hi - lo;
    if p < d then lo + p
    else
      assert p % d == p - d by { ModSecondHalf(p, d); }
      p - d + lo
  }

  /** Within the second of two periods the remainder is the offset from the
      period's start. */
  lemma ModSecondHalf(p: int, d: int)
    requires 0 < d <= p < 2 * d
    ensures p % d == p - d
  {
  }

  /** Bright marker in the first half of the period, dim marker in the second. */
  function StripColor(lo: int, hi: int, p: int): int {
    if p < hi - lo then MarkerBright else MarkerDim
  }

  /** One chase tick at (already advanced) phase `p`: the marker is written
      to the slot of the target pixel and nothing else changes. */
  function ChaseFrame(lo: int, hi: int, p: int, f: seq<int>): (g: seq<int>)
    requires 0 <= lo < hi <= PixelCount && 0 <= p < 2 * (hi - lo) && |f| == PixelCount
    ensures |g| == PixelCount
  {
    SlotInvolution();
    f[Slot(StripTarget(lo, hi, p)) := StripColor(lo, hi, p)]
  }

  /** The chase moves forward by one logical pixel per tick and jumps back
      to the segment start exactly when a half period begins, and again on
      the wrap to phase 0 at the end of the period. */
  lemma StripAdvances(lo: int, hi: int, p: int)
    requires 0 <= lo < hi && 0 <= p && p + 1 <= 2 * (hi - lo)
    ensures p + 1 < 2 * (hi - lo) && p + 1 != hi - lo ==> StripTarget(lo, hi, p + 1) == StripTarget(lo, hi, p) + 1
    ensures p + 1 == hi - lo ==> StripTarget(lo, hi, p + 1) == lo && StripTarget(lo, hi, p) == hi - 1
    ensures p + 1 == 2 * (hi - lo) ==> StripTarget(lo, hi, 0) == lo && StripTarget(lo, hi, p) == hi - 1
  {
  }

  // ---------------------------------------------------------------- stepLeds

  /** The globals after one `stepLeds`. */
  function AfterTick(s: State): (r: State)
    requires Inv(s)
    ensures Inv(r)
    ensures r.enabled == s.enabled && r.voltageCount == s.voltageCount
    ensures r.animating == s.animating && r.dimmed == s.dimmed
  {
    if !s.animating then s
    else if s.mode == Startup then
      var p := s.phase + 1;
      if p == 256 then s.(phase := 0, mode := Running) else s.(phase := p)
    else if s.mode == Running then
      var p := s.phase + 1;
      s.(phase := if p < 64 + 256 - 1 then p else 0)
    else if s.mode < ModeCount then
      var p := s.phase + 1;
      s.(phase := if p >= 2 * (SegmentEnd(s.mode) - SegmentStart(s.mode)) then 0 else p)
    else
      s.(mode := Startup, phase := 0)
  }

  /** The frame after one `stepLeds`, given the globals before it. */
  function TickFrame(s: State, f: seq<int>): (g: seq<int>)
    requires Inv(s) && |f| == PixelCount
    ensures |g| == PixelCount
  {
    if !s.animating then f
    else if s.mode == Startup then
      if s.phase + 1 == 256 then f else StartupFrame(s.phase + 1)
    else if s.mode == Running then
      Uniform(RunningColor(s.phase + 1, s.dimmed))
    else if s.mode < ModeCount then
      ChaseFrame(SegmentStart(s.mode), SegmentEnd(s.mode), AfterTick(s).phase, f)
    else
      Uniform(Off)
  }

  /** The two guards of `stepLeds`: with animation switched off nothing
      changes; with a mode outside the table every slot is turned off and
      the sweep restarts from Start-up at phase 0. */
  lemma StepLedsGuards(s: State, f: seq<int>)
    requires Inv(s) && |f| == PixelCount
    ensures !s.animating ==> AfterTick(s) == s && TickFrame(s, f) == f
    ensures s.animating && s.mode >= ModeCount ==> AfterTick(s) == s.(mode := Startup, phase := 0)
    ensures s.animating && s.mode >= ModeCount ==> forall j :: 0 <= j < PixelCount ==> TickFrame(s, f)[j] == Off
  {
  }

  /** `n` display ticks in a row. */
  function Ticks(s: State, n: nat): (r: State)
    requires Inv(s)
    ensures Inv(r)
    decreases n
  {
    if n == 0 then s else Ticks(AfterTick(s), n - 1)
  }

  /** A chase tick writes one slot, the image of pixel `lo + phase mod
      (hi - lo)` of the mode's own segment: the bright marker in the first
      half of the period, the dim one in the second. The 83 other slots
      keep their colours. */
  lemma StripWritesOneSlot(s: State, f: seq<int>)
    requires Inv(s) && |f| == PixelCount && s.animating
    requires AnimateLeft <= s.mode < ModeCount
    ensures
      var lo, hi, p := SegmentStart(s.mode), SegmentEnd(s.mode), AfterTick(s).phase;
      var t := lo + p % (hi - lo);
      && lo <= t < hi
      && IsIndex(Slot(t))
      && TickFrame(s, f)[Slot(t)] == (if p < hi - lo then MarkerBright else MarkerDim)
      && (forall j :: 0 <= j < PixelCount && j != Slot(t) ==> TickFrame(s, f)[j] == f[j])
  {
    var lo, hi, p := SegmentStart(s.mode), SegmentEnd(s.mode), AfterTick(s).phase;
    SlotInvolution();
    var t := StripTarget(lo, hi, p);
    assert TickFrame(s, f) == f[Slot(t) := StripColor(lo, hi, p)];
  }

  /** Phase is incremented before it is used: the first tick after a mode
      select (phase 0) lights the segment's second pixel, not its first. */
  lemma StripFirstTick(s: State, f: seq<int>)
    requires Inv(s) && |f| == PixelCount && s.animating
    requires AnimateLeft <= s.mode < ModeCount && s.phase == 0
    ensures IsIndex(Slot(SegmentStart(s.mode) + 1))
    ensures TickFrame(s, f) == f[Slot(SegmentStart(s.mode) + 1) := MarkerBright]
  {
    SlotInvolution();
  }

  /** Start-up runs its phase 1, 2, .., 255 in as many ticks and hands over
      to Running with phase 0 on the 256th tick. */
  lemma {:induction false} StartupSweep(s: State, n: nat)
    requires Inv(s) && s.animating && s.mode == Startup && s.phase == 0
    requires n <= 256
    ensures n < 256 ==> Ticks(s, n) == s.(phase := n)
    ensures n == 256 ==> Ticks(s, n) == s.(mode := Running, phase := 0)
  {
    if n > 0 {
      StartupSweep(s, n - 1);
      TicksLast(s, n - 1);
    }
  }

  /** Ticking `n + 1` times is ticking `n` times and once more. */
  lemma {:induction false} TicksLast(s: State, n: nat)
    requires Inv(s)
    ensures Ticks(s, n + 1) == AfterTick(Ticks(s, n))
    decreases n
  {
    if n > 0 {
      TicksLast(AfterTick(s), n - 1);
    }
  }

  /** Ticking `a + b` times is ticking `a` times, then `b` times. */
  lemma {:induction false} TicksAdd(s: State, a: nat, b: nat)
    requires Inv(s)
    ensures Ticks(s, a + b) == Ticks(Ticks(s, a), b)
    decreases a
  {
    if a > 0 {
      TicksAdd(AfterTick(s), a - 1, b);
    }
  }

  /** In Running and the four chases the mode is kept and the phase counts
      up by one per tick until it reaches the end of the period; Start-up is
      never re-entered. */
  lemma {:induction false} CyclicAdvance(s: State, n: nat)
    requires Inv(s) && s.animating && Running <= s.mode < ModeCount
    requires s.phase + n < Period(s.mode)
    ensures Ticks(s, n) == s.(phase := s.phase + n)
    decreases n
  {
    if n > 0 {
      var before := s.(phase := s.phase + n - 1);
      assert Ticks(s, n - 1) == before by {
        CyclicAdvance(s, n - 1);
      }
      assert AfterTick(before) == s.(phase := s.phase + n);
      TicksLast(s, n - 1);
    }
  }

  /** From any phase, a cyclic mode reaches phase 0 after the ticks that
      remain of its period. */
  lemma CyclicWrap(s: State)
    requires Inv(s) && s.animating && Running <= s.mode < ModeCount
    ensures Ticks(s, Period(s.mode) - s.phase) == s.(phase := 0)
  {
    var rest := Period(s.mode) - 1 - s.phase;
    CyclicAdvance(s, rest);
    TicksLast(s, rest);
  }

  /** After exactly one period the globals are back where they started: the
      phase visits every value of [0, period) once and wraps to 0. */
  lemma CyclicPeriod(s: State)
    requires Inv(s) && s.animating && Running <= s.mode < ModeCount
    ensures Ticks(s, Period(s.mode)) == s
  {
    var zero := s.(phase := 0);
    var rest := Period(s.mode) - s.phase;
    assert Ticks(s, rest) == zero by {
      CyclicWrap(s);
    }
    assert Ticks(zero, s.phase) == s by {
      CyclicAdvance(zero, s.phase);
    }
    TicksAdd(s, rest, s.phase);
  }
}
