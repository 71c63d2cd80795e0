/** The firmware's globals and its 84-slot frame buffer as one object. Each
    method does what the function of the same name in software/src/main.cpp
    does, step by step, and is proved against the specification functions
    of modules Animation, Power, Commands and Scheduler. */
module Controller {
  import opened PixelMap
  import opened Color
  import opened AppState
  import opened Animation
  import opened Power
  import opened Commands
  import opened Scheduler

  class Lights {
    /** The drawable frame, indexed by physical slot (`setPixel` writes one
        slot). */
    const frame: array<int>

    var mode: nat
    var phase: int
    var enabled: bool
    var suppressLights: bool
    var dimmed: bool
    var voltageCount: nat
    var animating: bool
    var measuring: bool
    /** Timestamps of the last display tick and the last voltage sample. */
    var last: U32
    var readAnalog: U32

    /** The scalar globals as a value. */
    function Globals(): State
      reads this
    {
      State(mode, phase, enabled, suppressLights, dimmed, voltageCount, animating, measuring)
    }

    ghost predicate Valid()
      reads this
    {
      frame.Length == PixelCount && Inv(Globals())
    }

    /** Power-on: the globals' initial values and a zeroed frame buffer. */
    constructor ()
      ensures Valid() && fresh(frame)
      ensures Globals() == Boot && last == 0 && readAnalog == 0
      ensures frame[..] == Uniform(Off)
    {
      frame := new int[PixelCount](_ => Off);
      mode, phase := Startup, 0;
      enabled, suppressLights, dimmed := false, false, false;
      voltageCount := 0;
      animating, measuring := true, false;
      last, readAnalog := 0, 0;
    }

    /** `clearLeds`: every logical pixel is written off, which turns off
        every physical slot. */
    method ClearLeds()
      requires frame.Length == PixelCount
      modifies frame
      ensures frame[..] == Uniform(Off)
    {
      SlotInvolution();
      var i := 0;
      while i < PixelCount
        invariant 0 <= i <= PixelCount
        invariant forall k :: 0 <= k < i ==> frame[Slot(k)] == Off
      {
        frame[Slot(i)] := Off;
        i := i + 1;
      }
      ScatterUnique(frame[..], Uniform(Off));
    }

    /** `stepLedStartup`: advance the head; on reaching 256 hand over to
        Running without drawing, otherwise draw the head, its trail and the
        dark pixels ahead on both channels. */
    method StepLedStartup()
      requires frame.Length == PixelCount && 0 <= phase < 256
      modifies this, frame
      ensures last == old(last) && readAnalog == old(readAnalog)
      ensures old(phase) + 1 == 256 ==>
        Globals() == old(Globals()).(mode := Running, phase := 0) && frame[..] == old(frame[..])
      ensures old(phase) + 1 != 256 ==>
        Globals() == old(Globals()).(phase := old(phase) + 1) && frame[..] == StartupFrame(phase)
    {
      phase := phase + 1;
      if phase == 256 {
        phase := 0;
        mode := Running;
        return;
      }
      DrawStartup();
    }

    /** The drawing loop of `stepLedStartup` for the current head position:
        logical pixels `i` and `i + 42` receive the same colour. */
    method DrawStartup()
      requires frame.Length == PixelCount && 0 <= phase
      modifies frame
      ensures frame[..] == StartupFrame(phase)
    {
      SlotInvolution();
      ghost var logical := StartupPattern(phase) + StartupPattern(phase);
      var i := 0;
      while i < StripLength
        invariant 0 <= i <= StripLength
        invariant forall k :: 0 <= k < i ==> frame[Slot(k)] == logical[k]
        invariant forall k :: StripLength <= k < StripLength + i ==> frame[Slot(k)] == logical[k]
      {
        var color := Off;
        if i == phase {
          color := White;
        }
        if i < phase {
          var val := DimPhase(phase - i);
          color := Gray(val);
        }
        StartupPatternTwice(phase, i);
        frame[Slot(i)] := color;
        frame[Slot(i + StripLength)] := color;
        i := i + 1;
      }
      ScatterUnique(frame[..], logical);
    }

    /** `stepLedRunning`: advance the breathing phase (wrapping after 318)
        and paint every slot with the glow colour. */
    method StepLedRunning()
      requires frame.Length == PixelCount && 0 <= phase
      modifies this, frame
      ensures last == old(last) && readAnalog == old(readAnalog)
      ensures Globals() == old(Globals()).(phase := if old(phase) + 1 < 64 + 256 - 1 then old(phase) + 1 else 0)
      ensures frame[..] == Uniform(RunningColor(old(phase) + 1, dimmed))
    {
      phase := phase + 1;
      ghost var q := phase;
      var color := 0;
      if phase < 64 {
        color := Gamma(phase * 4 + 3);
      } else if phase < 64 + 256 - 1 {
        color := Gamma(64 + 256 - 1 - phase);
      } else {
        phase := 0;
      }
      if color < 8 {
        color := 8;
      }
      if dimmed {
        color := color / 2;
      }
      color := color * 0x100;
      assert color == RunningColor(q, dimmed);
      SlotInvolution();
      var i := 0;
      while i != StripLength
        invariant 0 <= i <= StripLength
        invariant forall k :: 0 <= k < i ==> frame[Slot(k)] == color
        invariant forall k :: StripLength <= k < StripLength + i ==> frame[Slot(k)] == color
        modifies frame
      {
        frame[Slot(i)] := color;
        frame[Slot(i + StripLength)] := color;
        i := i + 1;
      }
      ScatterUnique(frame[..], Uniform(color));
    }

    /** `stepAnimateStrip<lo, hi>`: advance the chase and write its marker
        to one slot of the segment. */
    method StepAnimateStrip(lo: nat, hi: nat)
      requires frame.Length == PixelCount && lo < hi <= PixelCount && 0 <= phase
      modifies this, frame
      ensures last == old(last) && readAnalog == old(readAnalog)
      ensures Globals() == old(Globals()).(phase := if old(phase) + 1 >= 2 * (hi - lo) then 0 else old(phase) + 1)
      ensures frame[..] == ChaseFrame(lo, hi, phase, old(frame[..]))
    {
      phase := phase + 1;
      if phase >= (hi - lo) * 2 {
        phase := 0;
      }
      SlotInvolution();
      if phase < hi - lo {
        frame[Slot(phase + lo)] := MarkerBright;
      } else {
        frame[Slot(phase - (hi - lo) + lo)] := MarkerDim;
      }
    }

    /** `stepLeds`: nothing while animation is switched off; otherwise the
        current mode's step from the `animations` table, or, for a mode
        outside the table, a cleared frame and a restart. */
    method StepLeds()
      requires Valid()
      modifies this, frame
      ensures Valid()
      ensures last == old(last) && readAnalog == old(readAnalog)
      ensures Globals() == AfterTick(old(Globals()))
      ensures frame[..] == TickFrame(old(Globals()), old(frame[..]))
    {
      if !animating {
        return;
      }
      if mode < ModeCount {
        if mode == Startup {
          StepLedStartup();
        } else if mode == Running {
          StepLedRunning();
        } else {
          StepAnimateStrip(SegmentStart(mode), SegmentEnd(mode));
        }
      } else {
        ClearLeds();
        mode := Startup;
        phase := 0;
      }
    }

    /** `stepLowVoltage`. */
    method StepLowVoltage()
      requires Valid()
      modifies this, frame
      ensures Valid()
      ensures last == old(last) && readAnalog == old(readAnalog)
      ensures Globals() == LowVoltage(old(Globals()))
      ensures frame[..] == if LowVoltageClears(old(Globals())) then Uniform(Off) else old(frame[..])
    {
      mode := Startup;
      phase := 0;
      voltageCount := voltageCount + 1;
      if enabled {
        if suppressLights {
          ClearLeds();
        }
        if voltageCount > 5 {
          enabled := false;
          voltageCount := 0;
        }
      } else {
        if voltageCount > 10 {
          enabled := true;
          voltageCount := 4;
        }
      }
    }

    /** `stepVoltageCheck` for a raw ADC count; returns the level driven
        onto the power-gate pin. */
    method StepVoltageCheck(raw: int) returns (powerPin: bool)
      requires Valid()
      modifies this, frame
      ensures Valid()
      ensures last == old(last) && readAnalog == old(readAnalog)
      ensures Globals() == AfterSample(old(Globals()), Classify(raw))
      ensures frame[..] == if SampleClears(old(Globals()), Classify(raw)) then Uniform(Off) else old(frame[..])
      ensures powerPin == enabled
    {
      var reading := Classify(raw);
      if reading == Low {
        suppressLights := true;
        StepLowVoltage();
      } else {
        suppressLights := false;
        enabled := true;
        voltageCount := 0;
        dimmed := reading.dimmed;
      }
      powerPin := enabled;
    }

    /** Runs one command lambda. */
    method Perform(a: Action)
      requires Valid()
      modifies this
      ensures Valid()
      ensures last == old(last) && readAnalog == old(readAnalog)
      ensures Globals() == Apply(a, old(Globals()))
    {
      match a
      case PrintHelp =>
      case ToggleMeasuring =>
        measuring := !measuring;
      case ToggleEnabled =>
        enabled := !enabled;
        suppressLights := !enabled;
      case ToggleAnimating =>
        animating := !animating;
      case SelectMode(m) =>
        mode := m;
        phase := 0;
    }

    /** `handleCli`: scan the table up to its terminator and run the first
        entry whose key is `c`. */
    method HandleCli(c: char)
      requires Valid()
      modifies this
      ensures Valid()
      ensures last == old(last) && readAnalog == old(readAnalog)
      ensures Globals() == AfterCommand(old(Globals()), c)
    {
      TableShape();
      var i := 0;
      while Table[i].Entry?
        invariant 0 <= i < |Table|
        invariant Lookup(c, i) == Lookup(c, 0)
        decreases |Table| - i
      {
        if Table[i].key == c {
          Perform(Table[i].action);
          return;
        }
        i := i + 1;
      }
    }

    /** One iteration of `loop` at time `now`: `raw` is what the ADC would
        read and `input` the pending command character, if any; `shown`
        tells whether a frame was submitted to the LEDs. */
    method Loop(now: U32, raw: int, input: Option<char>) returns (shown: bool)
      requires Valid()
      modifies this, frame
      ensures Valid()
      ensures ChooseDuty(now, old(last), old(readAnalog)) == Display ==>
        && last == now && readAnalog == old(readAnalog) && shown == old(enabled)
        && Globals() == (if old(enabled) then AfterTick(old(Globals())) else old(Globals()))
        && frame[..] == (if old(enabled) then TickFrame(old(Globals()), old(frame[..])) else old(frame[..]))
      ensures ChooseDuty(now, old(last), old(readAnalog)) == Sample ==>
        && last == old(last) && readAnalog == now && !shown
        && Globals() == AfterSample(old(Globals()), Classify(raw))
        && frame[..] == (if SampleClears(old(Globals()), Classify(raw)) then Uniform(Off) else old(frame[..]))
      ensures ChooseDuty(now, old(last), old(readAnalog)) == Poll ==>
        && last == old(last) && readAnalog == old(readAnalog) && !shown
        && Globals() == (if input.Some? then AfterCommand(old(Globals()), input.value) else old(Globals()))
        && frame[..] == old(frame[..])
    {
      shown := false;
      if Elapsed(now, last) > FramePeriod {
        last := now;
        if enabled {
          StepLeds();
          shown := true;
        }
      } else if Elapsed(now, readAnalog) > SamplePeriod {
        readAnalog := now;
        var _ := StepVoltageCheck(raw);
      } else if input.Some? {
        HandleCli(input.value);
      }
    }
  }
}
