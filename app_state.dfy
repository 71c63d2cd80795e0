/** The firmware's mutable globals as one value: what the animation engine,
    the power controller and the command table read and update. */
module AppState {
  import opened PixelMap

  /** Animation modes (`STARTUP` .. `ANIMATE_BACK`); `ModeCount` is the
      number of entries of the `animations` table. */
  const Startup: nat := 0
  const Running: nat := 1
  const AnimateLeft: nat := 2
  const AnimateFront: nat := 3
  const AnimateRight: nat := 4
  const AnimateBack: nat := 5
  const ModeCount: nat := 6

  /** The scalar globals. `mode` is unbounded so that a value outside the
      table stays representable; `phase` is the source's signed counter;
      `voltageCount` is the debounce counter. */
  datatype State = State(
    mode: nat,
    phase: int,
    enabled: bool,
    suppressLights: bool,
    dimmed: bool,
    voltageCount: nat,
    animating: bool,
    measuring: bool)

  /** The logical segment a per-side animation mode chases over. */
  function SegmentStart(mode: nat): (lo: nat)
    requires AnimateLeft <= mode < ModeCount
  {
    if mode == AnimateLeft then LeftStart
    else if mode == AnimateFront then FrontStart
    else if mode == AnimateRight then RightStart
    else BackStart
  }

  function SegmentEnd(mode: nat): (hi: nat)
    requires AnimateLeft <= mode < ModeCount
    ensures SegmentStart(mode) < hi <= PixelCount
  {
    if mode == AnimateLeft then LeftEnd
    else if mode == AnimateFront then FrontEnd
    else if mode == AnimateRight then RightEnd
    else BackEnd
  }

  /** Number of display ticks after which a mode's phase wraps. */
  function Period(mode: nat): nat
    requires mode < ModeCount
  {
    if mode == Startup then 256
    else if mode == Running then 64 + 256 - 1
    else 2 * (SegmentEnd(mode) - SegmentStart(mode))
  }

  /** What every reachable state satisfies: the phase stays inside its mode's
      period (no signed overflow can happen) and the debounce counter never
      exceeds 10 (no unsigned wrap-around can happen). */
  predicate Inv(s: State) {
    && 0 <= s.phase
    && (s.mode < ModeCount ==> s.phase < Period(s.mode))
    && s.voltageCount <= 10
  }

  /** The globals' initial values. */
  const Boot: State := State(Startup, 0, false, false, false, 0, true, false)
}
