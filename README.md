# carlights firmware — a Dafny model

This project models the control logic of the carlights firmware
(`software/src/main.cpp`). The firmware drives two 42-LED WS2811 channels
around a car and powers them from the car's battery. It has four parts:

- **Pixel order.** A constant table `orderMap` maps each of the 84 logical
  pixels to a physical slot of the frame buffer. The logical index space is
  cut into four segments: left [0,27), front [27,42), right [42,68) and
  back [68,84).
- **Animation engine.** Each display tick advances `phase` and paints the
  frame for the current `mode`:
  - Start-up sweep: a white head with a fading grey trail.
  - Running: a green "breathing" glow.
  - Four per-side chases: a red marker walks one segment, first bright, then dim.
  - A mode outside the table clears the frame and restarts.
- **Power hysteresis.** Once a second the battery voltage is sampled.
  - A good sample switches the LED supply on and decides whether the lights are dimmed.
  - Low samples are debounced by `voltageCount`. The supply goes off after
    six of them. While it is off, it re-arms after eleven.
- **Commands and scheduling.** Single-character commands come from a
  sentinel-terminated table. The main loop picks one duty per iteration
  (display, voltage sample or command poll) from `micros()` timestamps,
  using unsigned 32-bit subtraction.

Layout:

| file | module | content |
|---|---|---|
| `pixel_map.dfy` | `PixelMap` | the `orderMap` table, its closed form `Slot`, and scattering logical pixels to physical slots |
| `color.dfy` | `Color` | packed `0xRRGGBB` colours |
| `app_state.dfy` | `AppState` | the scalar globals as a value `State`, the mode constants, the segment bounds per mode and the invariant `Inv` |
| `animation.dfy` | `Animation` | `dimPhase`, `gamma`, each mode's frame, and `stepLeds` as functions `AfterTick`/`TickFrame` on `State` and the frame |
| `power.dfy` | `Power` | sample classification and `stepLowVoltage`/`stepVoltageCheck` as functions on `State` |
| `commands.dfy` | `Commands` | the command table, the first-match lookup, and the lambdas as `Apply` |
| `scheduler.dfy` | `Scheduler` | `uint32_t` elapsed time and the duty choice of `loop` |
| `controller.dfy` | `Controller` | class `Lights`: the globals as fields and the frame buffer as an `array<int>` of 84 slots |

The firmware's functions are written out step by step as methods of
`Controller.Lights`. Each method is proved against the value-level function
of the same operation. It ensures `Globals() == F(old(Globals()))` and
`frame[..] == G(old(Globals()), old(frame[..]))`. The properties are then
proved as lemmas about those functions.

The methods write pixels as `frame[Slot(i)]`. Lemma
`PixelMap.OrderMapIsSlot` proves that the literal table `OrderMap` equals
`Slot` at every index, so this is the same slot the firmware's
`orderMap[i]` selects.

Behaviour of `software/src/main.cpp` worth spelling out:
- While the supply is off, low samples count towards re-arming it
  (lines 306-316).
- An Ok sample enables the supply at once and zeroes the counter
  (lines 337-341).
- In the second half of a chase period the dim marker walks the segment
  forwards from `START` (line 251).
- The markers `0x020000` and `0xFF0000` use the same byte, bits 16-23
  (lines 247 and 251).
- A reading is low exactly when the raw ADC count is at most 657.

## Model

| member | source | states |
|---|---|---|
| PixelMap.OrderMapIsSlot | software/src/main.cpp:28-117 | the 84-entry table is the identity outside [42,68] and reflects 42..68 onto 68..42 |
| PixelMap.OrderMapInvolution | software/src/main.cpp:28-117 | every entry is a slot in [0,84) and the table is its own inverse |
| PixelMap.OrderMapBijection | software/src/main.cpp:28-117 | the table is a permutation of [0,84): injective, and every slot is hit |
| PixelMap.ScatterUnique | software/src/main.cpp:150-153 | writing all 84 logical pixels through the table determines every physical slot |
| Color.RgbChannels | software/src/main.cpp:186-193 | a colour packed from three bytes (`val << 16 \| val << 8 \| val`) fits in 24 bits and gives its bytes back |
| Animation.DimPhase | software/src/main.cpp:164-172 | the trail brightness is in [1,255], and at most 127 behind the head |
| Animation.DimPhaseNonIncreasing | software/src/main.cpp:164-172 | the trail never gets brighter with distance from the head |
| Animation.GammaBounds | software/src/main.cpp:200-203 | `gamma` maps bytes to bytes, with `gamma(0) == 0` and `gamma(255) == 255` |
| Animation.GammaMonotone | software/src/main.cpp:200-203 | `gamma` is monotone on non-negative inputs |
| Animation.StartupFrameAt | software/src/main.cpp:183-197 | logical pixels `i` and `i+42` get the same colour: white at the head, `dimPhase(phase-i)` grey behind it, off ahead of it |
| Animation.StartupTrail | software/src/main.cpp:183-197 | the head is the only white pixel and the trail fades with distance |
| Animation.RunningLevelBounds | software/src/main.cpp:207-229 | the glow level is in [8,255], or in [4,127] when dimmed |
| Animation.RunningColorChannels | software/src/main.cpp:229 | the glow colour's only non-zero byte is bits 8-15, and it holds the level |
| Animation.RunningBreathes | software/src/main.cpp:207-222 | the glow rises over phases [0,64), peaks at 255, and falls over [64,319) |
| Animation.StripTarget | software/src/main.cpp:245-252 | the pixel a chase writes lies in its segment [START,END), at offset `phase mod (END-START)` |
| Animation.StripAdvances | software/src/main.cpp:245-252 | the marker moves one pixel forward per tick and jumps back to the start exactly when the second half begins and on the wrap at the end of the period |
| Animation.AfterTick | software/src/main.cpp:264-283 | `stepLeds` keeps every mode's phase inside its period and changes neither `enabled`, `voltageCount`, `animating` nor `dimmed` |
| Animation.StepLedsGuards | software/src/main.cpp:269-282 | with animation off nothing changes; with mode ≥ 6 every slot goes dark and mode and phase reset to 0 |
| Animation.StripWritesOneSlot | software/src/main.cpp:237-253 | a chase tick writes pixel `START + phase mod (END-START)` of its own segment, bright in the first half of the period and dim in the second, and leaves the other 83 slots unchanged |
| Animation.StripFirstTick | software/src/main.cpp:240-249 | phase is incremented before it is used: the first tick after a mode select lights the segment's second pixel |
| Animation.StartupSweep | software/src/main.cpp:176-182 | from phase 0, start-up takes phases 1..255 and hands over to Running at phase 0 on the 256th tick |
| Animation.Ticks | software/src/main.cpp:264-283 | any number of display ticks keeps the invariant |
| Animation.CyclicAdvance | software/src/main.cpp:207-220 | Running and the chases keep their mode and count the phase up by one per tick within the period |
| Animation.CyclicWrap | software/src/main.cpp:207-220 | from any phase, Running or a chase is back at phase 0 after the ticks left in its period |
| Animation.CyclicPeriod | software/src/main.cpp:207-220 | after exactly one period (319 for Running, twice the segment length for a chase) the globals are back where they started |
| Power.Classify | software/src/main.cpp:325-341 | raw ≤ 657 is exactly `volts < 11.8`, and raw ≤ 780 is exactly `volts < 14.0`, with `volts = raw * 12.9 / 719` |
| Power.LowVoltage | software/src/main.cpp:285-318 | `stepLowVoltage` keeps the debounce counter at most 10 and the phase in range |
| Power.AfterSample | software/src/main.cpp:331-342 | a voltage sample keeps the invariant |
| Power.SampleEffects | software/src/main.cpp:331-342 | an Ok sample enables, zeroes the counter, releases the lights and sets `dimmed`; a Low sample suppresses the lights and resets mode and phase |
| Power.Samples | software/src/main.cpp:322-344 | any sequence of samples keeps the invariant |
| Power.EnabledLowStep | software/src/main.cpp:289-305 | for every counter while enabled (including 6..10, reachable when 'e' re-enables), a low sample keeps the supply on with the counter one higher exactly while that is at most 5, and otherwise turns it off with the counter at 0 |
| Power.LowsWhileEnabled | software/src/main.cpp:289-305 | while enabled, each low sample counts one up, and the supply goes off with the counter at 0 exactly when it passes 5 |
| Power.LowsWhileDisabled | software/src/main.cpp:306-316 | while disabled, low samples keep counting, and the supply re-arms with the counter at 4 exactly when it passes 10 |
| Power.SixthLowDisables | software/src/main.cpp:289-305 | from enabled with counter 0, exactly the sixth consecutive low sample disables |
| Power.ReArmThenTwoLows | software/src/main.cpp:289-316 | from disabled with counter 0, the eleventh low sample re-enables with counter 4, and exactly two more disable again |
| Commands.TableShape | software/src/main.cpp:362-382 | nine entries with distinct keys `? m e ␠ 1 2 3 4 0`, then the terminator |
| Commands.LookupFrom | software/src/main.cpp:397-405 | the scan from entry `i` finds the entry keyed `c` if one lies before the terminator, and nothing otherwise |
| Commands.LookupFinds | software/src/main.cpp:395-406 | a character is found exactly when it is a key; `'\0'` is never found |
| Commands.AfterCommand | software/src/main.cpp:395-406 | a command keeps the invariant |
| Commands.SelectCommands | software/src/main.cpp:371-380 | '1'..'4' select modes 2..5 and '0' selects mode 0, each with phase 0 and nothing else changed |
| Commands.ToggleCommands | software/src/main.cpp:363-370 | 'e' toggles `enabled` and sets `suppressLights = !enabled`; ' ' toggles `animating`; 'm' toggles `measuring`; '?' changes nothing |
| Commands.UnknownCommand | software/src/main.cpp:395-406 | any other character, `'\0'` included, leaves the globals unchanged |
| Scheduler.Elapsed | software/src/main.cpp:420-429 | `now - since` in `uint32_t` is the 32-bit value that, added to `since` with wrap-around, gives `now` |
| Scheduler.ElapsedAcrossWrap | software/src/main.cpp:420-429 | the elapsed time is recovered exactly even when the counter wraps between two readings |
| Scheduler.DutyTiming | software/src/main.cpp:417-438 | with `d` µs since the last display tick and `e` µs since the last sample, across any counter wrap: display exactly when `d > 16600`; sample exactly when `d <= 16600 && e > 1000000`; command poll exactly when `d <= 16600 && e <= 1000000` |
| Controller.Lights.constructor | software/src/main.cpp:140-146 | the globals start at their declared initial values (those of lines 140-146, with `measuring`/`animating` from lines 23-24 and `mode` from line 156), with a dark frame |
| Controller.Lights.ClearLeds | software/src/main.cpp:148-154 | after the loop every physical slot is 0 |
| Controller.Lights.StepLedStartup | software/src/main.cpp:174-198 | on reaching 256 it switches to Running at phase 0 and writes nothing; otherwise the frame is the start-up frame of the new phase |
| Controller.Lights.DrawStartup | software/src/main.cpp:183-197 | after the drawing loop the frame is the start-up frame of the current phase: every slot holds its pixel's head, trail or off colour on both channels |
| Controller.Lights.StepLedRunning | software/src/main.cpp:205-235 | the phase advances, wrapping to 0 after 318, and all 84 slots hold the glow colour of the advanced phase |
| Controller.Lights.StepAnimateStrip | software/src/main.cpp:237-253 | the phase advances, wrapping at twice the segment length, and the frame is the old frame with the marker written at the target slot |
| Controller.Lights.StepLeds | software/src/main.cpp:264-283 | the globals and frame become `AfterTick` and `TickFrame` of the old ones |
| Controller.Lights.StepLowVoltage | software/src/main.cpp:285-318 | the globals become `LowVoltage` of the old ones, and the frame is cleared exactly when enabled and suppressed |
| Controller.Lights.StepVoltageCheck | software/src/main.cpp:322-344 | the globals become `AfterSample` of the classified reading, and the power pin is driven to `enabled` |
| Controller.Lights.Perform | software/src/main.cpp:362-381 | running an entry's lambda changes the globals as `Apply` says |
| Controller.Lights.HandleCli | software/src/main.cpp:395-406 | the scan up to the terminator changes the globals as `AfterCommand` says |
| Controller.Lights.Loop | software/src/main.cpp:417-438 | exactly one of display (only when enabled), voltage sample or command poll happens, as `ChooseDuty` decides, and the matching timestamp is updated |

## Left out

- `LEDS.busy()` spin-wait, `showLeds` and `LEDS.show()`: hardware handshakes. `Loop` reports through `shown` whether a frame would be submitted.
- OctoWS2811's own buffers and its GRB byte layout: foreign library code. `setPixel` is modelled as writing one slot of an 84-int array.
- `setup`, `pinMode` and the indicator pin: pin I/O. The power-gate `digitalWrite` is modelled as `StepVoltageCheck`'s result.
- `analogRead` and `micros()`: hardware inputs, passed in as parameters (`raw`, `now`).
- The serial port: `stepCli`'s `available()`/`read()` become the `input` parameter of `Loop`.
- All serial output: `printHelp`'s text, the usage hint, and the messages printed when `measuring` is on.
- Power.Classify: uses exact rational arithmetic instead of the single-precision `lastVoltFloat`. The nearest raw readings to 11.8 V and 14.0 V are more than 0.005 V away from them, so float rounding cannot change the classification.
- `phase` as a signed 32-bit `int` and `voltageCount` as `uint32_t` are modelled as unbounded integers. The invariant `AppState.Inv` keeps them in small ranges, so neither can overflow.
