# Colorant targeting engine — a Dafny model

This project models the detection-and-decision core of the Colorant engine
(`ColorantEngine` in `src/colorant.rs`). The engine samples a screen region
and finds the pixels whose colour falls inside an HSV window. It computes the
mean position of those pixels and turns that position's offset from the centre
of the field of view into mouse commands: a move, a click, or a flick (flick,
click, flick back). A flag toggles the engine on and off, and each flip pauses
or resumes the capture.

Files, one module each:

- `color.dfy` (`Color`): `rgb_to_hsv_opencv`. This is pure code, so it is
  modelled as functions over exact reals. The float-to-byte cast `as u8` is
  written out as saturating truncation (`CastU8`). The float remainder `%` is
  written out as `FMod`, a remainder truncated toward zero.
- `detector.dfy` (`Detector`): `find_target_hsv`. This is a method with the
  same nested row/column loops; the inner loop over one row is the method
  `ScanRow`. It is proved against the specification
  function `Centroid`, which is built from the running tallies `RowTally` and
  `FrameTally`.
- `configuration.dfy` (`Configuration`): `Config`, its default values, the
  `Action` kinds, and the gain guard of `new`.
- `dispatch.dfy` (`Dispatch`): what `process_action` sends for a target.
  `Plan` gives the full command sequence. `Issued` gives the commands actually
  sent when the device fails some of them, because `?` stops at the first
  error.
- `engine.dfy` (`Engine`): the `ColorantEngine` class. Its `toggled` field is
  updated in place. Its members are:
  - the constructor `Assemble`;
  - the methods `New`, `Toggle`, `ProcessAction`, `Act` and `Close`, where
    `Act` is the action dispatch inside `process_action`;
  - the function `IsEnabled`.

  The capture source and the mouse are small classes that record the calls
  made to them:
  - the capture answers each frame request from a scripted `feed`;
  - the mouse fails the commands whose positions in its trace are in
    `failing`.

`IsEnabled` (src/colorant.rs:99-101) returns the flag. It has no contract of
its own; the contracts of `Toggle`, `ProcessAction` and `New` are stated
through it. The `## Model` rows that begin "defines" are definitions. The
lemmas and methods listed beside them state the properties of those
definitions.

In these places the model follows the code as written:

- Detection has no minimum-cluster threshold. A target exists as soon as one
  pixel matches (`pixel_count > 0`).
- The flick is undone by the exact inverse vector. The flick's x offset
  includes an extra +2 pixels.
- The red hue branch applies the float remainder by 6 before scaling. For the
  quotients that can occur (magnitude at most 1), this remainder is the
  identity (`FModSixSmall`).
- Shutdown has no idempotence guard. `Close` sends stop and close every time
  it is called.

## Model

| member | source | states |
|---|---|---|
| Color.CastU8 | src/colorant.rs:200-226 | the `as u8` cast: negative values give 0; values in [0,256) give their integer part, so 255.0 gives 255; values from 256 up saturate at 255 |
| Color.Trunc | src/colorant.rs:213 | truncation toward zero: the result is the integer part of the value, at most 1 away, on the value's side of zero |
| Color.FMod | src/colorant.rs:213 | the float remainder `%`: x − r is a whole multiple of m, and r has the sign of x and magnitude below m; these fix r as x − m·trunc(x/m) |
| Color.RedSector | src/colorant.rs:212-213 | defines the hue formula of the red branch: 60·((g−b)/delta % 6) |
| Color.GreenSector | src/colorant.rs:214-215 | defines the hue formula of the green branch: 60·((b−r)/delta + 2) |
| Color.BlueSector | src/colorant.rs:216-217 | defines the hue formula of the blue branch: 60·((r−g)/delta + 4) |
| Color.Wrap | src/colorant.rs:220-222 | defines the wrap of a negative hue by +360 |
| Color.HueDegrees | src/colorant.rs:209-223 | defines the hue in degrees: 0 when delta is 0, otherwise the red, green or blue formula, tried in that order, then wrapped |
| Color.RgbToHsv | src/colorant.rs:190-229 | defines the 8-bit HSV of one pixel over exact reals: v and s truncated to bytes, the hue halved and truncated; its properties are the lemmas below |
| Color.FModSixSmall | src/colorant.rs:213 | the float remainder by 6.0 leaves any value of magnitude below 6 unchanged |
| Color.ValueIsMaxChannel | src/colorant.rs:191-200 | the value component equals the largest of the three input channels |
| Color.HueInRange | src/colorant.rs:209-226 | after the negative wrap, the hue in degrees lies in [0,360), so the 8-bit hue is always below 180 |
| Color.GreyHasNoHueOrSaturation | src/colorant.rs:197-211 | r = g = b gives hue 0, saturation 0 and value r |
| Color.SaturationExtremes | src/colorant.rs:202-207 | saturation is 0 exactly for grey pixels; it is 255 exactly when the smallest channel is 0 and the largest is not |
| Color.TiesAgree | src/colorant.rs:211-222 | when red ties for the maximum, the red branch is taken; the tied channel's formula gives the same hue (60 for a red–green tie, 300 for a red–blue tie) |
| Color.PrimaryColours | src/colorant.rs:190-229 | pure red, green and blue convert to (0,255,255), (60,255,255) and (120,255,255) |
| Detector.InWindow | src/colorant.rs:169-171 | defines inclusive membership of all three components in the window |
| Detector.Matches | src/colorant.rs:166-171 | defines a matching pixel: its HSV conversion lies in the window |
| Detector.RowTally | src/colorant.rs:161-176 | defines the x-sum, y-sum and count of the matching pixels among the first n of row y |
| Detector.FrameTally | src/colorant.rs:160-177 | defines the tally of the first m rows, row by row |
| Detector.AsI32 | src/colorant.rs:182-183 | the `as i32` cast: the result is in [−2^31, 2^31) and equals the input modulo 2^32 |
| Detector.Centroid | src/colorant.rs:179-187 | defines the answer: nothing when the count is 0, otherwise each sum divided by the count and cast to 32 bits |
| Detector.FindTargetHsv | src/colorant.rs:155-188 | the row-major scan returns `Centroid` of the frame; it returns nothing exactly when no pixel lies in the window |
| Detector.ScanRow | src/colorant.rs:161-176 | the inner loop over one row returns that row's tally of matching pixels (their x-sum, y-sum and count) |
| Detector.RowBounds | src/colorant.rs:161-176 | over a row prefix: the count is at most its length; the y-sum is y times the count; the x-sum lies between 0 and (length−1)·count |
| Detector.RowCountZero | src/colorant.rs:169-174 | over a row prefix, the count is 0 exactly when no pixel of the prefix is kept |
| Detector.FrameBounds | src/colorant.rs:160-177 | over the first m rows: both sums are non-negative, the x-sum is at most (width−1)·count, and the y-sum is at most (m−1)·count |
| Detector.FrameCountZero | src/colorant.rs:169-177 | over the first m rows, the count is 0 exactly when no pixel of those rows is kept |
| Detector.NoneIffNoMatch | src/colorant.rs:169-187 | the detector answers nothing exactly when no pixel has all three HSV components inside the inclusive window |
| Detector.InvertedWindowFindsNothing | src/colorant.rs:169-171 | a window with lower > upper in any component never finds a target |
| Detector.MatchFindsTarget | src/colorant.rs:169-181 | one matching pixel is enough for a target (no minimum cluster size) |
| Detector.CentroidInFrame | src/colorant.rs:179-184 | for sides of at most 2^31 pixels, the target is (Σx / count, Σy / count) with truncating division, and it lies in [0,width)×[0,height) |
| Detector.AsI32Small | src/colorant.rs:182-183 | the `as i32` cast leaves values in [0, 2^31) unchanged |
| Detector.MeanBelow | src/colorant.rs:182-183 | the truncated mean of values below n is itself in [0, n) |
| Configuration.ResolveSpeeds | src/colorant.rs:59-63 | both caller gains are kept unless either one is 0; then both are replaced by the derived gains; no other field changes |
| Configuration.DefaultConfig | src/colorant.rs:20-35 | defines the default configuration: origin (0,0), a 75×75 field of view, sensitivity 0.23, gains 0.435 and 4.628, window (140,120,180)–(160,200,255) |
| Configuration.DefaultKeepsGains | src/colorant.rs:20-35 | the default gains (0.435, 4.628) survive the guard |
| Configuration.ResolveSpeedsIdempotent | src/colorant.rs:61-63 | for any derived gains, resolving a second time changes nothing |
| Configuration.ResolvedSpeedsNonZero | src/colorant.rs:61-63 | with non-zero derived gains, the resolved gains are never zero |
| Dispatch.InClickWindow | src/colorant.rs:129-133 | defines the click tolerance: within 4 pixels left or right and 10 pixels up or down of the centre, inclusive |
| Dispatch.MoveVector | src/colorant.rs:119-124 | defines the move vector: the offset from the centre times the move gain |
| Dispatch.FlickVector | src/colorant.rs:139-143 | defines the flick vector: the offset, 2 pixels further right, times the flick gain |
| Dispatch.Plan | src/colorant.rs:116-149 | defines the commands each action sends when none fails |
| Dispatch.Issued | src/colorant.rs:122-147 | defines the commands sent when the device fails some trace positions: the plan up to and including the first failure |
| Dispatch.Net | src/colorant.rs:122-147 | defines the total cursor displacement of a command sequence; a click moves nothing |
| Dispatch.IssuedStopsAtFirstFailure | src/colorant.rs:122-147 | the commands sent form a prefix of the plan: the whole plan when none fails, otherwise everything up to and including the first failing command |
| Dispatch.MoveStillOnlyAtCentre | src/colorant.rs:118-126 | with a non-zero move gain, Move displaces the cursor by zero exactly when the target is at the centre of the field of view |
| Dispatch.ClickWindowInPixels | src/colorant.rs:128-135 | Click sends one click or nothing, and it clicks exactly when abs(2·tx − x_fov) ≤ 8 and abs(2·ty − y_fov) ≤ 20, that is within 4 pixels left or right and 10 pixels up or down of the centre |
| Dispatch.ClickWindowEdges | src/colorant.rs:132-133 | for an even field of view: offsets (±4, ±10) click; offsets (5, 0) and (0, 11) do not |
| Dispatch.FlickReturns | src/colorant.rs:138-147 | Flick sends flick(fx,fy), click, flick(−fx,−fy), with fx = ((tx+2) − x_fov/2)·flick_speed and fy = (ty − y_fov/2)·flick_speed; the net displacement is zero |
| Dispatch.FlickClickFailureStrands | src/colorant.rs:145-147 | if the click fails, the return flick is never sent and the cursor stays displaced by the flick vector |
| Engine.NextFrame | src/colorant.rs:108-111 | defines the answer to one frame request: the next scripted frame, or nothing once the script is used up |
| Engine.CycleCommands | src/colorant.rs:108-150 | defines what one enabled cycle plans: nothing without a frame or a target, otherwise the action's plan for the target |
| Engine.QuietCycle | src/colorant.rs:108-116 | defines a cycle that sends nothing: no frame arrived, or the frame holds no target |
| Engine.ColorantEngine.IsEnabled | src/colorant.rs:99-101 | defines the enabled state as the flag; the contracts of Toggle, ProcessAction and New state what it returns |
| Engine.Capture.WithFov | src/colorant.rs:65-70 | the capture is opened over the configured origin and field of view, with no calls made yet |
| Engine.Capture.GetFrameBlocking | src/colorant.rs:108-111 | one frame request is recorded; the answer is the next scripted frame, or nothing (a timeout) |
| Engine.Capture.Resume | src/colorant.rs:89 | records a resume call |
| Engine.Capture.Pause | src/colorant.rs:92 | records a pause call |
| Engine.Capture.Stop | src/colorant.rs:232 | records a stop call |
| Engine.Mouse.Open | src/colorant.rs:72-73 | the mouse is opened with an empty command trace |
| Engine.Mouse.Send | src/colorant.rs:122-147 | the command is appended to the trace; the call fails exactly when its position is a failing one |
| Engine.Mouse.Close | src/colorant.rs:233 | records a close call |
| Engine.ColorantEngine.Assemble | src/colorant.rs:75-80 | a new engine holds the given configuration and handles, and starts disabled |
| Engine.ColorantEngine.New | src/colorant.rs:59-83 | creation fails exactly when the capture or the mouse fails to open; otherwise the engine is disabled, has the resolved gains, and holds a capture over the configured region |
| Engine.ColorantEngine.Toggle | src/colorant.rs:85-97 | negates the flag, returns the new state, and records resume when it is now enabled or pause otherwise; the mouse is untouched |
| Engine.ColorantEngine.ProcessAction | src/colorant.rs:103-153 | disabled: nothing is requested or sent, and the result is Ok. Enabled: exactly one frame is requested, and the sent commands are `Issued` of the cycle's plan. Ok means no command failed. No frame or no target means nothing is sent and the result is Ok |
| Engine.ColorantEngine.Act | src/colorant.rs:116-150 | for a target, sends the action's `Plan` in order, stopping at the first failure; succeeds exactly when no planned command fails |
| Engine.ColorantEngine.Close | src/colorant.rs:231-235 | records one stop on the capture and one close on the mouse; it has no guard against being called twice |
| Engine.ToggleTwice | src/colorant.rs:85-97 | two toggles restore the flag, after one resume and one pause in the order the flips demand |

## Left out

- Single-precision rounding. All arithmetic is over exact reals, and every
  lemma about the conversion is proved for that model. At truncation
  boundaries, `f32` results can differ. The saturation at
  src/colorant.rs:204 shows it:
  - channels with maximum 3 and minimum 1 give 170 over reals but 169 in
    `f32`;
  - channels 255 and 254 give 1 over reals but 0 in `f32`.
- Color.SaturationExtremes holds over exact reals only. Its "saturation is 0
  exactly for grey pixels" fails in `f32` for (255, 254, 254).
  Color.HueInRange and Color.PrimaryColours are also proved over exact reals
  only.
- `calculate_speeds` (src/colorant.rs:38-41) uses `powf` with a non-integer
  exponent. The derived gains reach `ResolveSpeeds` and `New` as the
  parameter `derived`.
- 64-bit overflow of the running sums in the detector is not modelled. The
  model's sums are unbounded integers, which neither wrap nor panic. In the
  source, when every pixel matches, the x-sum is h·w(w−1)/2 and the y-sum is
  w·h(h−1)/2. Either can exceed 2^63−1, for example:
  - a square frame of side 2,642,247 (about 2^42.7 pixels);
  - a frame 2^32−1 pixels wide and two rows high.
- Detector.CentroidInFrame: the bound is stated only for frame sides up to
  2^31. For larger sides the `as i32` cast can wrap, and the model does
  reproduce that wrap (`AsI32`).
- The capture source and the serial mouse are not part of this model beyond
  the calls the engine makes on them. This covers:
  - the capture's frame format and timing;
  - the mouse protocol;
  - what the capture does when the mouse fails to open after it.
- The 100 ms wait, async/await and the log messages are left out. They do not
  change what the engine decides.
- `Drop` (src/colorant.rs:238-242) is left out. It calls `close` once more,
  so an explicit `Close` followed by drop stops and closes twice.
