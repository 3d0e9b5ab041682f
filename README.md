# reXact-fps in Dafny

reXact-fps is a small pygame program for feeling input latency. A ball is driven by a game
controller stick (or pinned to the mouse) and simulated at a fixed *engine* rate. It is drawn at
an independent *visual* rate, with optional interpolation. A bouncing target can be enabled, and
a button press that lands inside it makes it flash. A HUD of widgets changes the rates and
settings. A help dialog and an update checker sit beside the game.

This project models the logic of that program and proves what it promises.

- **`Util`** (`util.py`): `clamp`, `lerp`, `lerp_color`, `ease_out_cubic`, `apply_deadzone`,
  `distance_sq` and the `nearest_snap` loop. Python's `round` is modelled as round-half-to-even.
- **`Config`** (`config.py`): the numeric bounds and defaults, the button colour table, the
  fallback palette and the button labels.
- **`Simulation`** (`simulation.py`): `EngineState`, `TargetState` and `BallVisual` are classes
  whose fields the methods update in place.
  - `EngineStep` snapshots the previous position, moves or pins the ball, clamps it to the canvas,
    runs the glow timer, applies the button edges, moves and reflects the target, and runs the hit
    test.
  - `ClampStateToBounds`, `SetTargetEnabled`, `SetParams` and `Reset` are the other updates.
- **`MainLoop`** (`main.py`): the frame loop as a `Driver` class over the accumulator, the last
  frame time, the last render time and the controller cursor. It takes the clock as a parameter.
  It covers:
  - the 0.25 s frame cap;
  - the drain loop that runs one engine step per `engine_dt`;
  - render gating and the interpolation alpha;
  - the render-time cursor integrator;
  - the mouse-button edge mapping;
  - the rate setters and the 75 % sleep rule.
- **`Render`** (`render.py`): `RateMeter` and the glow and flash strength arithmetic.
- **`InputDevices`** (`input_devices.py`): `ControllerManager` device selection, axis gating, and
  the rising-edge scan over the buttons.
- **`Updater`** (`updater.py`):
  - version keys and their lexicographic order;
  - flag and descriptor parsing;
  - the github.com raw-URL rewrite;
  - the update status and the decision whether to show it.
- **`UpdaterState`** (`updater.py`): the update dialog's event handling and download button, and
  the manager's toast, snooze, pump and event routing.
- **`Ui`** (`ui.py`):
  - the ellipsis search over an abstract text-width function;
  - the checkbox;
  - the dropdown's scroll, wheel, thumb, selection and collapse logic;
  - the slider-with-box commit, drag and key editing.
- **`Help`** (`help.py`):
  - the word wrapper with its hard-break binary search, over an abstract text-width function;
  - the signature-line test;
  - the help dialog's scroll clamping, scrollbar, keys, wheel, drag and click handling.
- **`Video`** (`video.py`): the resolution presets, their labels, fullscreen filtering and
  windowed-size normalisation.
- **`Text`** and **`Wrappers`**: the Python string operations these rely on, and `Option`.
  `Text` covers `strip`, `lower`, `split`, `join`, `splitlines`, `str(int)` and `int(text)`.

## Model

| member | source | states |
|---|---|---|
| Util.Clamp | source/util.py:7-8 | inside `[lo, hi]` when `lo <= hi`; the identity on values already inside; on an empty interval, `lo` below `lo` and `hi` otherwise |
| Util.ClampIdempotent | source/util.py:7-8 | clamping twice equals clamping once on a non-empty interval |
| Util.DegenerateClampMoves | source/util.py:7-8 | on an empty interval a second clamp moves a value below `lo` from `lo` to `hi` |
| Util.ClampInt | source/util.py:7-8 | the integer `int(clamp(float x, ...))` equals the real clamp and lies in `[lo, hi]` |
| Util.Lerp | source/util.py:11-12 | `a` at `t = 0`, `b` at `t = 1`, and between `a` and `b` for `t` in `[0, 1]` |
| Util.Round | source/util.py:18-20 | Python's `round`: within one half of `x`, and exact on integers |
| Util.RoundBetween | source/util.py:18-20 | rounding a value between two integers stays between them |
| Util.LerpColor | source/util.py:15-21 | `c0` for `t <= 0`, `c1` for `t >= 1`, and every channel between the two colours' channels |
| Util.EaseOutCubic | source/util.py:24-27 | in `[0, 1]`, 0 for `t <= 0`, 1 for `t >= 1` |
| Util.EaseOutCubicMonotone | source/util.py:24-27 | the curve never decreases |
| Util.ApplyDeadzone | source/util.py:30-35 | 0 inside the deadzone and for any deadzone of at least 1; in `[-1, 1]`; the sign of `v`; magnitude 1 once `abs(v) >= 1` |
| Util.DistanceSq | source/util.py:38-41 | non-negative, 0 for equal points, at least the square of each axis offset |
| Util.DistanceSqSymmetric | source/util.py:38-41 | swapping the two points gives the same value |
| Util.SnappedNoneInWindow | source/util.py:44-52 | with no snap within the window the loop returns `value` |
| Util.SnappedIsNearest | source/util.py:44-52 | otherwise it returns a snap in the window that no other snap beats, and the earliest one on ties |
| Util.NearestSnap | source/util.py:44-52 | the loop over the snaps returns the nearest snap, per the two lemmas above |
| Config.ButtonColorKeys | source/config.py:76-95 | the colour table's keys are exactly 0..17 |
| Config.ButtonColor | source/config.py:117-122 | table entry for 0..17; palette entry `i mod 16` for every other index, negative ones included; never the white fallback |
| Config.ButtonLabelReadsBack | source/config.py:125-126 | the label is `"button "` followed by digits that read back as the index |
| Config.DefaultsInRange | source/config.py:32-54 | each default lies within its min and max |
| Text.Strip | source/updater.py:75 | `str.strip`: no whitespace at either end, and empty exactly when the input is all whitespace |
| Text.StripSlice | source/updater.py:75 | `str.strip` keeps the slice that starts after the leading whitespace, and only whitespace follows it |
| Text.Lower | source/help.py:208 | `str.lower` on ASCII: same length, character by character |
| Text.LowerIdempotent | source/help.py:208 | lowering twice equals lowering once |
| Text.SplitOn | source/updater.py:82 | `str.split(sep)`: at least one part, no part contains `sep`, and joining with `sep` restores the input |
| Text.SplitOnJoin | source/updater.py:82 | splitting a `sep`-join of `sep`-free parts gives the parts back |
| Text.SplitLines | source/updater.py:74 | `str.splitlines`: no line holds a line break; no lines exactly for empty text |
| Text.SplitLinesJoin | source/updater.py:74 | when every break is `\n`, joining the lines with `\n` and putting back a final `\n` gives the text |
| Text.ParseDecimal | source/ui.py:577-578 | `int(str(n), 10) == n` for every integer |
| Text.ParseInt | source/ui.py:577-578 | `int(text)` fails on empty or sign-only text, is negative only after a `-`, and reads a digit string as its value |
| Simulation.ClampPoint | source/simulation.py:99-104 | inside the radius-inset box when it is non-empty; the identity on points already inside |
| Simulation.ClampPointIdempotent | source/simulation.py:99-109 | clamping a point twice equals clamping once |
| Simulation.ClampPointTinyWindow | source/simulation.py:133-135 | in a 1×1 window the box is empty and clamping moves the ball between `(26, 26)` and `(-25, -25)` |
| Simulation.StepBall | source/simulation.py:126-135 | the moved ball lies in the inset box; with an override it is the clamped override |
| Simulation.OverrideIgnoresStick | source/simulation.py:126-131 | with an override the stick values do not matter |
| Simulation.StillBallStays | source/simulation.py:126-135 | a zero stick, or `dt = 0`, leaves an in-bounds ball where it is |
| Simulation.Saturate | source/simulation.py:137-140 | the timer advances by `dt` below the cap, is set to the cap when it would pass it, stays put at or above the cap, and stays in `[0, cap]` for `dt >= 0` |
| Simulation.BlinkColor | source/simulation.py:142-144 | the colour of the last edge; unchanged with no edges |
| Simulation.LastEdgeWins | source/simulation.py:142-144 | whatever came before, the last edge decides the colour |
| Simulation.ReflectAxis | source/simulation.py:155-167 | a bounce that moves the target up leaves it moving up, one that moves it down leaves it moving down, and keeps the speed |
| Simulation.ReflectAxisSpec | source/simulation.py:155-167 | below the minimum: clamp and `+abs(v)`; above the maximum: clamp and `-abs(v)`; inside: unchanged; magnitude always kept |
| Simulation.TargetMovedBounds | source/simulation.py:147-167 | after a move the target is inside its inset box and both velocity magnitudes are unchanged |
| Simulation.CentreHits | source/simulation.py:175-177 | a ball on the target's centre is a hit (the test is inclusive) |
| Simulation.FlashAfter | source/simulation.py:169-178 | reset to 0 iff a button edge lands within `max(0, tr - br)`; otherwise advance and saturate |
| Simulation.TargetRadius | source/simulation.py:33-34 | within one half of `ball_radius * size_pct / 100` |
| Simulation.TargetRadiusRange | source/simulation.py:33-39 | for sizes in the configured range the radius lies in `[17, 70]` |
| Simulation.BallVisual.constructor | source/simulation.py:15-18 | base colour and a finished glow |
| Simulation.BallVisual.Advance | source/simulation.py:137-144 | the glow saturates with no edges and restarts with any edge; the colour is that of the last edge |
| Simulation.TargetState.constructor | source/simulation.py:21-31 | the dataclass defaults |
| Simulation.TargetState.SetParams | source/simulation.py:36-43 | size and speed clamped to their ranges, radius recomputed, velocity = direction × speed; nothing else changes |
| Simulation.TargetState.Reset | source/simulation.py:45-60 | radius recomputed, position at (0.65 w, 0.45 h) clamped into the box, velocity = direction × speed, flash finished |
| Simulation.TargetState.Step | source/simulation.py:146-178 | a disabled target is untouched; an enabled one moves with reflection and updates its flash |
| Simulation.EngineState.constructor | source/simulation.py:75-90 | ball centred, default target parameters, target disabled and reset |
| Simulation.EngineState.SetTargetEnabled | source/simulation.py:93-96 | sets `enabled`, and resets the target only when enabling |
| Simulation.EngineState.ClampStateToBounds | source/simulation.py:99-109 | both ball positions clamped; the target clamped only when enabled |
| Simulation.EngineState.EngineStep | source/simulation.py:112-178 | `prev_pos` is the old position, the ball is moved or pinned and in bounds, glow and colour as above, the target as above |
| Simulation.EngineState.MoveBall | source/simulation.py:124-135 | the ball part of the step alone |
| Render.WindowRate | source/render.py:24-25 | `count / elapsed` is in `[0, count]` and positive for a positive count |
| Render.RateMeter.constructor | source/render.py:13-18 | the window starts now, count 0, value 0 |
| Render.RateMeter.Tick | source/render.py:20-27 | below one second: count + 1 and value kept; from one second on: value = count / elapsed, count 0, window restarts; value stays non-negative |
| Render.FadeTime | source/render.py:47-48 | normalised time in `[0, 1]`; 1 for a non-positive duration |
| Render.FadeTimeMonotone | source/render.py:47-48 | normalised time never decreases with elapsed time |
| Render.FadeStrength | source/render.py:49-52 | `1 - ease(t)` in `[0, 1]`: 1 at 0 elapsed, 0 at the full duration |
| Render.FadeStrengthMonotone | source/render.py:76-79 | strength never increases with elapsed time |
| Render.BallColor | source/render.py:47-51 | the blink colour at 0 elapsed, the base colour once the glow is over |
| Render.GlowStrength | source/render.py:47-52 | the glow strength is 1 at 0 elapsed and 0 at the full duration |
| Render.FlashDrawnWindow | source/render.py:76-83 | the flash is drawn at 0 elapsed, not at the full duration, and never again once it stops |
| InputDevices.RisingEdgesSpec | source/input_devices.py:152-159 | the edges are exactly the buttons pressed now and not before, in increasing order |
| InputDevices.FreshButtonsAllEdges | source/input_devices.py:148-150 | after a reset to all-False, every held button is an edge |
| InputDevices.ControllerManager.constructor | source/input_devices.py:29-41 | no device, axes 0 and 1, empty debug text |
| InputDevices.ControllerManager.Detach | source/input_devices.py:101-110 | clears the device, its index and id, and the button memory |
| InputDevices.ControllerManager.SelectDevice | source/input_devices.py:65-85 | `None` detaches; re-selecting the active index changes nothing; otherwise the new device with all-False memory |
| InputDevices.ControllerManager.HandleDeviceAdded | source/input_devices.py:93-95 | selects the new device only when none is active |
| InputDevices.ControllerManager.HandleDeviceRemoved | source/input_devices.py:97-99 | detaches only on a matching instance id |
| InputDevices.ControllerManager.PeekAxes | source/input_devices.py:112-135 | `(0, 0)` with no device or too few axes; both in `[-1, 1]`; reads no button state |
| InputDevices.ControllerManager.Sample | source/input_devices.py:137-163 | no device: zero sample; otherwise axes as `PeekAxes`, edges as `RisingEdges`, memory = current buttons; `any_button_edge` iff edges |
| InputDevices.ControllerManager.SampleButtons | source/input_devices.py:148-159 | memory reset when the count changed, then the rising-edge scan |
| InputDevices.ControllerManager.ScanButtons | source/input_devices.py:152-159 | the per-button loop computes the rising edges and the debug label of the last one |
| MainLoop.Period | source/main.py:568 | `1 / max(1, fps)` is in `(0, 1]` and `fps` periods make a second |
| MainLoop.PeriodsFillASecond | source/main.py:568 | for `fps >= 1`, `fps` periods sum to one second |
| MainLoop.MouseButton | source/main.py:576 | a physical button maps to a logical button in 0..2 |
| MainLoop.MouseButtonBijective | source/main.py:576 | the mapping is one-to-one on the three buttons and sends physical 0, 2, 1 to logical 0, 1, 2 |
| MainLoop.MouseEdgesSpec | source/main.py:575-588 | an edge is a mapped button that went from up to down, and there are at most three |
| MainLoop.MouseEdgesAllPressed | source/main.py:575-588 | pressing all three gives `[0, 2, 1]` (physical order); holding them gives none |
| MainLoop.MouseScan | source/main.py:578-588 | the loop computes the mouse edges, stores the pressed state and the last edge's label |
| MainLoop.SleepTime | source/main.py:721-737 | a sleep is always longer than 75 % of 0.002 s, and there is none when both waits are at most 0.002 s |
| MainLoop.SleepTimeSpec | source/main.py:721-737 | the sleep is 75 % of the smaller wait when both are positive and of the positive one otherwise; none when neither is positive; a sleep happens exactly when that wait exceeds 0.002 s, and ends before each positive deadline |
| MainLoop.UncappedSleepFollowsEngine | source/main.py:722-737 | with an uncapped visual rate, the sleep follows the engine wait alone |
| MainLoop.StepsDueSpec | source/main.py:570-622 | the drain runs `floor(acc / dt)` steps and leaves `0 <= acc < dt` |
| MainLoop.DrainedIsProduct | source/main.py:621 | n subtractions remove `n × dt` |
| MainLoop.CursorStepStaysInBox | source/main.py:471-493 | the cursor stays in the ball's box, and snaps to the ball when both axes are 0 |
| MainLoop.CursorStepStillFrame | source/main.py:479-493 | a moving stick over a zero-length frame leaves an in-box cursor in place |
| MainLoop.Driver.constructor | source/main.py:101-128 | the default rates, interpolation and deadzone relaxation on, mouse mode off, the target off, ball and cursor at the window centre, empty accumulator, both meters at 0 |
| MainLoop.Driver.CurrentDeadzone | source/main.py:118-119 | the relaxed deadzone when relaxation is on, none otherwise |
| MainLoop.Driver.SetEngineFps | source/main.py:166-168 | clamps to `[1, 2000]` |
| MainLoop.Driver.SetVisualFps | source/main.py:170-172 | clamps to `[0, 2000]` |
| MainLoop.Driver.SetTarget | source/main.py:182-185 | enables or disables the target through `set_target_enabled` |
| MainLoop.Driver.SetTargetSize | source/main.py:187-192 | size clamped, target parameters reset, and the target re-clamped when enabled |
| MainLoop.Driver.SetTargetSpeed | source/main.py:194-197 | speed clamped and the velocity rescaled |
| MainLoop.Driver.SetMouseMode | source/main.py:199-206 | mouse memory cleared; leaving mouse mode puts the cursor on the ball |
| MainLoop.Driver.Resize | source/main.py:516-525 | the state re-clamped to the new window and the cursor on the ball |
| MainLoop.Driver.BeginFrame | source/main.py:464-468 | `frame_dt = min(now - last, 0.25)` is added to the accumulator |
| MainLoop.Driver.TrackCursor | source/main.py:470-493 | in controller mode the cursor integrates the stick; unchanged in mouse mode |
| MainLoop.Driver.ScanMouse | source/main.py:575-588 | mouse edges against the memory, then memory = pressed |
| MainLoop.Driver.StepWithInput | source/main.py:571-619 | one engine step on the mouse or on a controller sample |
| MainLoop.Driver.EngineTick | source/main.py:571-622 | one step, `engine_dt` subtracted, the engine meter ticked once; `prev_pos` takes the old position; in mouse mode the ball goes to the clamped cursor and the edges are the mouse edges, otherwise the ball moves by the controller's axes; the glow takes the last edge's colour |
| MainLoop.Driver.Drain | source/main.py:568-622 | `floor(acc / dt)` ticks; the accumulator ends below `engine_dt` and stays non-negative; the ball stays in bounds |
| MainLoop.Driver.RenderGate | source/main.py:624-633 | renders iff `visual_fps <= 0` or a visual period has passed; rendering sets `last_render` and ticks the visual meter |
| MainLoop.Driver.Alpha | source/main.py:638-639 | `alpha` is in `[0, 1]`, equals `acc / dt` when the accumulator is below one step, 0 for an empty accumulator and 1 for a full step |
| MainLoop.Driver.RenderPos | source/main.py:638-642 | with interpolation, each coordinate is `lerp(prev, cur, alpha)`: the previous position at alpha 0, the current one at alpha 1; without it, the current position |
| MainLoop.Driver.NextEngineIn | source/main.py:721 | non-negative, and positive exactly when the accumulator is below one step |
| MainLoop.Driver.NextRenderIn | source/main.py:722-726 | 0 when uncapped; when capped, 0 exactly when the render is due, and otherwise the time until `last_render + 1/visual_fps` |
| MainLoop.Driver.FrameSleep | source/main.py:728-737 | 75 % of the smaller wait when both are positive, of the positive one otherwise, none when neither is; shorter than each positive wait |
| Video.LabelNamesWidth | source/video.py:18-19 | the label starts with the width's digits, followed by `×` |
| Video.DefaultPresets | source/video.py:25-42 | twelve presets |
| Video.DefaultPresetsDistinct | source/video.py:25-42 | all presets are positive and pairwise distinct as `(w, h)` |
| Video.KeptSpec | source/video.py:69 | the kept presets are exactly the presets whose size is a listed mode |
| Video.Offered | source/video.py:63-69 | the offered presets are default presets, and in fullscreen with known modes every one is a mode |
| Video.KeptAll | source/video.py:69 | when every mode is available nothing is dropped |
| Video.BuildResolutionItems | source/video.py:63-74 | one `(label, (w, h))` item per offered preset, in preset order |
| Video.ItemsOf | source/video.py:71-74 | the append loop builds one item per preset in order |
| Video.OfferedAll | source/video.py:63-69 | windowed, or with unknown modes: all twelve presets |
| Video.OfferedFullscreen | source/video.py:66-69 | fullscreen with known modes: exactly the presets in the mode set |
| Video.NormalizeWindowedSize | source/video.py:77-81 | both components at least 1, and unchanged when already at least 1 |
| Video.NormalizeIdempotent | source/video.py:77-81 | normalising twice equals normalising once |
| Updater.VersionKey | source/updater.py:58-62 | a non-empty sequence of non-negative integers |
| Updater.VersionKeyOfDotted | source/updater.py:58-62 | the key of a dotted number reads back its parts |
| Updater.VersionKeyNoDigits | source/updater.py:60-61 | no digits gives `(0,)` |
| Updater.LexLessIrreflexive | source/updater.py:366 | tuple `<` is irreflexive |
| Updater.LexLessTransitive | source/updater.py:366 | tuple `<` is transitive |
| Updater.LexLessTotal | source/updater.py:362-366 | tuple order is total |
| Updater.NumericOrderExample | source/updater.py:58-62 | `1.9` orders before `1.10` |
| Updater.ParseFlags | source/updater.py:65-69 | no flag is empty or holds a comma or whitespace; blank input gives none |
| Updater.ParseFlagsOfJoin | source/updater.py:65-69 | parsing a comma-join of flags gives the flags back |
| Updater.LineBody | source/updater.py:75-81 | blank and comment lines give nothing; the text before `#`, stripped, otherwise |
| Updater.EntryOfLineSound | source/updater.py:74-91 | blank and comment lines give no entry; an entry has a non-empty version, os and url, a lower-case os, and no pipe or `#` in its version and url |
| Updater.EntryOfLine | source/updater.py:74-91 | an entry has a non-empty version, os and url; an empty line body gives none |
| Updater.EntryLineReadsBack | source/updater.py:82-91 | a clean entry written as its pipe-separated line (version, os, flags, url) parses back to itself |
| Updater.DescriptorEntriesSound | source/updater.py:72-92 | every entry comes from one line of the text |
| Updater.DescriptorEntriesComplete | source/updater.py:72-92 | every line that parses contributes its entry |
| Updater.ParseDescriptor | source/updater.py:72-92 | the loop returns the per-line entries in order |
| Updater.NonEmpty | source/updater.py:109 | drops the empty path segments and keeps the rest |
| Updater.RewriteGithubRawUrl | source/updater.py:95-131 | a result only for a github.com host with at least five segments whose third is `raw`; the result is on the raw host with owner and repo kept |
| Updater.RewritePlainRef | source/updater.py:117-129 | `/o/r/raw/<ref>/file` becomes `raw.githubusercontent.com/o/r/<ref>/file` |
| Updater.RewriteRefsHeads | source/updater.py:118-129 | the `refs/heads/<ref>` form is reduced to `<ref>` |
| Updater.RewriteRejects | source/updater.py:105-112 | another host, or fewer than five segments, gives nothing |
| Updater.ForOsSpec | source/updater.py:361 | the entries whose lower-cased os equals the tag |
| Updater.FirstMaxIndexSpec | source/updater.py:362 | `max` picks the first entry with a maximal key |
| Updater.ComputeStatus | source/updater.py:360-381 | the status of `_compute_status` |
| Updater.Status | source/updater.py:360-381 | an available update has a latest entry whose key is above the current one; the latest entry is one of the entries, for this OS |
| Updater.DeprecationScan | source/updater.py:368-373 | the loop stops at the first matching entry and reports its deprecated flag |
| Updater.StatusUpdateAvailableSound | source/updater.py:361-366 | an update means the latest entry for the OS has a larger key than the current version |
| Updater.StatusUpdateAvailableComplete | source/updater.py:361-366 | any entry for the OS with a larger key means an update |
| Updater.StatusLatest | source/updater.py:362 | `latest` is the first maximal entry for the OS |
| Updater.Latest | source/updater.py:362 | no latest entry exactly when the OS has none; otherwise one of them, with no key above its key |
| Updater.StatusNoEntries | source/updater.py:361-373 | no entries for the OS: no latest, no update, not deprecated |
| Updater.StatusDeprecatedAt | source/updater.py:368-373 | deprecation is decided by the first entry matching the current version alone |
| Updater.StatusNotDeprecated | source/updater.py:368-373 | no matching entry: not deprecated |
| Updater.StatusDeprecatedMeans | source/updater.py:368-373 | deprecated means the first matching entry carries a `deprecated` flag, in any case |
| Updater.StatusDeprecatedHasLatest | source/updater.py:361-373 | a deprecated status always has a latest entry |
| Updater.ShouldShow | source/updater.py:383-390 | always when deprecated; never without an update; never when snoozed at the latest version |
| Updater.SnoozeSilences | source/updater.py:388-389 | snoozing the latest version silences it |
| Updater.SnoozeOtherVersion | source/updater.py:383-390 | a snooze at another version does not |
| Updater.BackgroundCheck | source/updater.py:464-486 | a silent check acts iff `_should_show`, and then opens the dialog |
| Updater.DecideStatus | source/updater.py:464-491 | a toast only for a manual check, an error toast exactly when the OS has no entry; the dialog only for a deprecated version or an available update |
| Updater.ManualCheck | source/updater.py:464-473 | a manual or forced check with an update opens the dialog, snooze or not |
| Updater.ManualCheckNothing | source/updater.py:476-486 | a manual check without an update shows a toast, an error toast iff no entry exists for the OS |
| UpdaterState.DialogModal | source/updater.py:708-756 | a hidden dialog handles nothing; a visible one consumes every event |
| UpdaterState.DialogStep | source/updater.py:702-756 | an unconsumed event changes nothing; a callback only from a visible dialog; a quit is asked only for a deprecated version; a snooze names the latest version and closes the dialog |
| UpdaterState.DeprecatedDialog | source/updater.py:712-747 | when deprecated: the snooze box never toggles, nothing snoozes, and Escape, releases and skip all quit |
| UpdaterState.SnoozeOnlyFromSkip | source/updater.py:743-752 | a snooze comes only from skip with the box ticked on a non-deprecated status, at the latest version |
| UpdaterState.DownloadOnce | source/updater.py:729-734 | once requested, no second download starts |
| UpdaterState.DownloadClick | source/updater.py:729-734 | a download click requests the latest url, and arms quit-on-done when deprecated |
| UpdaterState.DownloadButtonEnabled | source/updater.py:817-828 | the download button is enabled iff nothing was requested or the download failed |
| UpdaterState.UpdateDialog.constructor | source/updater.py:601-639 | visible, nothing requested, nothing downloaded |
| UpdaterState.UpdateDialog.SetDownloadState | source/updater.py:641-648 | stores the state, and quits and hides once done when exit-on-download was armed for a deprecated status |
| UpdaterState.UpdateDialog.HandleEvent | source/updater.py:702-756 | the dialog's flags and effect follow `DialogStep` |
| UpdaterState.UpdateDialog.DownloadButton | source/updater.py:817-828 | the button's label and enablement; a failed download is re-armed |
| UpdaterState.UpdateManager.constructor | source/updater.py:209-265 | lower-cased os tag, stripped stored snooze, no toast, no dialog |
| UpdaterState.UpdateManager.ShowToast | source/updater.py:279-283 | sticky toasts never expire; others last at least 0.25 s |
| UpdaterState.UpdateManager.ClearToastIfExpired | source/updater.py:285-294 | clears exactly a non-sticky toast whose time is up |
| UpdaterState.UpdateManager.SetSnoozeUntil | source/updater.py:405-407 | stores the stripped version |
| UpdaterState.UpdateManager.StartDownload | source/updater.py:409-416 | resets the download state unless a download is running |
| UpdaterState.UpdateManager.Pump | source/updater.py:448-499 | a notice only shows a toast; a status with no dialog follows `DecideStatus`; an open dialog receives the download state and, when deprecated and set to exit, closes and asks to quit once the download is done; the toast is untouched when nothing asks for one |
| UpdaterState.UpdateManager.ApplyStatus | source/updater.py:464-491 | opens the dialog or shows the toast `DecideStatus` asks for; a background check that shows no toast leaves the toast as it was |
| UpdaterState.UpdateManager.HandleEvent | source/updater.py:518-528 | a visible dialog takes every event as `DialogStep`, a snooze is stored stripped and a download request resets the download state unless one is running; otherwise only a left click on the Updates button starts a check |
| Ui.Inflate | source/ui.py:592 | the inflated rectangle contains the original one |
| Ui.Scaled | source/ui.py:29-31 | `_s` is at least `min_v`, and the rounded scaled value when that is larger |
| Ui.Trunc | source/ui.py:324-326 | `int()` truncates toward zero |
| Ui.LongestFit | source/ui.py:46-58 | the longest prefix whose candidate fits; every longer one is too wide |
| Ui.EllipsizeInfo | source/ui.py:34-58 | the base cases; a truncated result ends in `...`, fits, and keeps a stripped prefix; with a monotone width it is the longest such prefix |
| Ui.CandidateShape | source/ui.py:51 | a candidate is a right-stripped prefix followed by `...` |
| Ui.SearchCut | source/ui.py:46-58 | the binary search finds a fitting candidate, the longest one under a monotone width |
| Ui.CheckboxRow.constructor | source/ui.py:107-124 | stores the rectangle, state and callback |
| Ui.CheckboxRow.HandleEvent | source/ui.py:126-133 | a left click inside toggles and notifies; anything else changes nothing |
| Ui.ClampedScroll | source/ui.py:238-246 | in `[0, max(0, total - 10)]`; 0 when everything fits; unchanged when in range |
| Ui.ScrolledBy | source/ui.py:248-254 | in range, the exact move when it stays in range, and in the move's direction |
| Ui.WheelStep | source/ui.py:321-329 | the step is the truncation of the accumulator, 0 below one, and leaves less than one behind |
| Ui.ThumbScroll | source/ui.py:267-276 | in range; 0 when everything fits |
| Ui.ThumbEnds | source/ui.py:267-276 | the thumb at the top gives 0, at the bottom the maximum scroll |
| Ui.Scrollbar | source/ui.py:256-265 | a scrollbar iff there are more items than rows; the thumb inside the track |
| Ui.ThumbAt | source/ui.py:263-264 | the thumb sits in the track column and within the track |
| Ui.ButtonStepOpposesWheel | source/ui.py:313-342 | as written, button 5 scrolls up, opposite to a downward wheel step |
| Ui.ButtonStepMatchesWheel | source/ui.py:313-342 | the corrected button step equals the wheel step in the same direction |
| Ui.StepWheelButton | source/ui.py:333-342 | over the open list, buttons 4 and 5 scroll by the as-written step reversed, so button 5 moves one row down |
| Ui.Collapsed | source/ui.py:278-282 | collapsing clears the expansion, drag and accumulator and keeps the scroll |
| Ui.StepScrollInRange | source/ui.py:284-396 | every event leaves the scroll unchanged or in range |
| Ui.StepSelection | source/ui.py:344-385 | a selection comes only from a left click on a list row, is below `total`, is `scroll + row`, and collapses the list |
| Ui.StepWheelRemainder | source/ui.py:312-330 | a wheel event over the list leaves less than one step in the accumulator |
| Ui.StepDragModal | source/ui.py:287-310 | while dragging every event is consumed and nothing is selected |
| Ui.StepClosed | source/ui.py:344-396 | Escape collapses an expanded list; a closed list ignores everything but a left click |
| Ui.Step | source/ui.py:284-396 | an event the row does not consume changes nothing; a chosen index is in range and closes the list; Escape always leaves the list closed and is consumed only when it was open |
| Ui.ClickStep | source/ui.py:344-388 | an unconsumed click changes nothing; a click on the value box toggles the list; a chosen index is in range and closes the list |
| Ui.DropdownRow.constructor | source/ui.py:197-228 | collapsed, scroll 0, no drag, empty accumulator |
| Ui.DropdownRow.ClampScroll | source/ui.py:238-246 | the scroll becomes the clamped scroll |
| Ui.DropdownRow.ScrollBy | source/ui.py:248-254 | the scroll becomes the scrolled-by value |
| Ui.DropdownRow.SetScrollFromThumb | source/ui.py:267-276 | the scroll becomes the thumb scroll |
| Ui.DropdownRow.Collapse | source/ui.py:278-282 | the state becomes the collapsed state |
| Ui.DropdownRow.DragEvent | source/ui.py:287-310 | follows the drag step |
| Ui.DropdownRow.WheelEvent | source/ui.py:312-331 | follows the wheel step |
| Ui.DropdownRow.ClickEvent | source/ui.py:344-388 | follows the click step |
| Ui.DropdownRow.HandleEvent | source/ui.py:284-396 | the state, consumption and selection follow `Step` |
| Ui.SliderConfig.MouseValue | source/ui.py:545-552 | in `[min, max]` |
| Ui.SliderConfig.SliderFraction | source/ui.py:547-548 | the slider fraction is in `[0, 1]` |
| Ui.SliderConfig.TextTarget | source/ui.py:569-584 | blank text: the empty value if allowed, else nothing; non-integer text: nothing; otherwise the snapped value, with no snapping for the empty value |
| Ui.ValueAtFraction | source/ui.py:549 | `min` at 0 and `max` at 1 |
| Ui.MouseValueEnds | source/ui.py:545-552 | left of the slider gives `min`, right of it `max` |
| Ui.TextTargetOfDecimal | source/ui.py:569-584 | the decimal text of a value commits that value, snapped |
| Ui.EditedText | source/ui.py:632-639 | Backspace drops one trailing character (none on empty); digits append; other characters are ignored |
| Ui.BackspaceUndoesDigit | source/ui.py:632-639 | Backspace undoes a typed digit |
| Ui.CommitValueStep | source/ui.py:560-567 | clamps, notifies iff the value changed, always rewrites the text |
| Ui.CommitTextStep | source/ui.py:569-584 | an unreadable text restores the text and keeps the value; otherwise the clamped target is committed |
| Ui.SliderLeavesBox | source/ui.py:605-631 | Return, Escape or a click elsewhere leaves the box with the text showing the value; Escape never changes it |
| Ui.SliderStep | source/ui.py:586-641 | an event the row does not consume changes nothing; `on_change` is only called for a consumed event, with the new value |
| Ui.SliderClickStep | source/ui.py:590-608 | an unconsumed press changes nothing; `on_change` gets the new value |
| Ui.SliderKeyStep | source/ui.py:623-639 | an unconsumed key changes nothing; `on_change` gets the new value |
| Ui.SliderDragInRange | source/ui.py:590-621 | a click on the track or a drag sets an in-range value and notifies it |
| Ui.SliderWithBoxRow.constructor | source/ui.py:493-527 | the initial value is clamped, the snap window is at least 1, and the text shows the value |
| Ui.SliderWithBoxRow.ValueFromMouse | source/ui.py:545-552 | the mouse value |
| Ui.SliderWithBoxRow.CommitValue | source/ui.py:560-567 | follows the commit-value step |
| Ui.SliderWithBoxRow.CommitText | source/ui.py:569-584 | follows the commit-text step |
| Ui.SliderWithBoxRow.HandleEvent | source/ui.py:586-641 | the state, consumption and notification follow `SliderStep` |
| Ui.SliderWithBoxRow.ClickEvent | source/ui.py:590-608 | follows the click step |
| Ui.SliderWithBoxRow.KeyEvent | source/ui.py:623-639 | follows the key step |
| Help.ConcatAppend | source/help.py:53-74 | concatenation distributes over appending lists of lines |
| Help.UnspacedAppend | source/help.py:45-74 | removing spaces distributes over concatenation |
| Help.UnspacedJoin | source/help.py:45-48 | joining words with spaces adds only spaces |
| Help.CutSearchFits | source/help.py:59-69 | the binary search returns a length in `[1, len]` that is 1 or fits |
| Help.HardCut | source/help.py:58-70 | each hard-break piece has length in `[1, len]` and fits unless it is one character |
| Help.CutSearchLongest | source/help.py:59-69 | under a monotone width, every prefix longer than the search result is too wide |
| Help.HardCutLongest | source/help.py:58-70 | under a monotone width each piece is the longest fitting prefix |
| Help.HardBreakConcat | source/help.py:56-72 | the pieces of a hard-broken token concatenate back to the token |
| Help.HardBreakPieces | source/help.py:56-72 | each piece is non-empty, fits or is one character, and has no space if the token has none |
| Help.WrapWordsLines | source/help.py:45-74 | each line is non-empty and fits or holds a single word |
| Help.WrapWordsKeepsText | source/help.py:45-74 | the lines hold the paragraph's text: only spaces are lost |
| Help.WrapParagraphSpec | source/help.py:40-74 | a blank paragraph gives one empty line; any other gives non-empty lines that fit or hold one word and keep the text |
| Help.WrapTextSpec | source/help.py:35-76 | `[text]` when `max_w <= 8`; no lines for empty text otherwise |
| Help.FindCut | source/help.py:59-69 | the binary-search loop computes the hard cut |
| Help.HardBreakLines | source/help.py:56-72 | the hard-break loop computes the pieces |
| Help.WrapWordsAt | source/help.py:47-72 | one step of the word loop |
| Help.WrapWordsLoop | source/help.py:47-74 | the word loop computes the greedy line filling `WrapWords` |
| Help.WrapParagraphLines | source/help.py:40-74 | a blank paragraph gives one empty line, any other the word loop over its space-separated words |
| Help.WrapText | source/help.py:35-76 | the paragraph loop computes the wrapped text |
| Help.RStripLower | source/help.py:208 | right-stripping commutes with lower-casing |
| Help.LStripLower | source/help.py:208 | left-stripping commutes with lower-casing |
| Help.DiscreetLineIgnoresCase | source/help.py:207-208 | the signature test ignores letter case |
| Help.IsDiscreetLine | source/help.py:207-208 | a line that is the signature is at least as long as the signature |
| Help.MaxScrollY | source/help.py:246 | non-negative; `content_h - body_h` when the content is taller |
| Help.ClampScrollY | source/help.py:245-247 | in `[0, max_scroll]`; unchanged when already in range |
| Help.HelpScrollbar | source/help.py:249-271 | a scrollbar iff the content is taller than the body; the thumb has the minimum height, sits in the track and is at the top at scroll 0 |
| Help.HelpThumbScroll | source/help.py:273-283 | the scroll from a thumb position is in `[0, max_scroll]` |
| Help.HelpThumbEnds | source/help.py:273-283 | the thumb at the top gives 0, at the bottom the maximum |
| Help.PageHeight | source/help.py:345 | a page is at least one line |
| Help.HelpHiddenIgnores | source/help.py:336-337 | a hidden dialog handles no event |
| Help.HelpStepScrollInRange | source/help.py:335-423 | every event leaves the scroll unchanged or in range |
| Help.HelpKeys | source/help.py:339-366 | Escape hides; Home goes to 0 and End to the maximum; Up/Down move two lines and PgUp/PgDn one page, clamped |
| Help.HelpModal | source/help.py:368-423 | wheel, clicks and drag events are consumed; the GitHub link opens only from a click on it |
| Help.HelpStep | source/help.py:335-423 | an unconsumed event changes nothing and opens nothing; a request for the project page is consumed and changes nothing else |
| Help.WrapWidth | source/help.py:319 | the wrap width is at least 40 |
| Help.HelpDialog.constructor | source/help.py:212-234 | visible, the initial panel, no content, scroll 0 |
| Help.HelpDialog.ClampScroll | source/help.py:245-247 | the scroll becomes the clamped scroll |
| Help.HelpDialog.ScrollByPixels | source/help.py:331-333 | moves by the pixels, then clamps |
| Help.HelpDialog.SetScrollFromThumb | source/help.py:273-283 | the scroll becomes the thumb scroll |
| Help.HelpDialog.Layout | source/help.py:316-323 | the new frame, the text wrapped to the body, `content_h = lines × line_h`, the scroll re-clamped |
| Help.HelpDialog.PlaceFrame | source/help.py:294-316 | the dialog takes the given frame |
| Help.HelpDialog.Rewrap | source/help.py:319-323 | re-wraps the text and re-clamps the scroll |
| Help.HelpDialog.KeyEvent | source/help.py:339-366 | handles exactly the dialog's keys, as `HelpKeyStep` |
| Help.HelpDialog.DragEvent | source/help.py:368-382 | follows the drag step |
| Help.HelpDialog.ClickEvent | source/help.py:393-421 | follows the click step |
| Help.HelpDialog.HandleEvent | source/help.py:335-423 | the state, consumption and GitHub request follow `HelpStep` |

## Left out

- Drawing is not modelled: surfaces, fonts, blits, tooltips and every `draw`/`draw_overlay`.
  The text-width function is a parameter.
- Layout geometry is not modelled: `build_ui`, the update dialog's `layout`, and the help
  dialog's panel, button and body placement. `Help.HelpDialog.Layout` takes the computed frame as
  a parameter. The scaled constants (`_s`) are modelled with `UI_SCALE = 1`.
- Clocks, devices and the OS are parameters:
  - `time.perf_counter`, `time.monotonic` and `sleep` (the loop takes `now`);
  - `pygame.event`, `pygame.mouse` and `pygame.joystick` readings (axis and button arrays,
    mouse positions);
  - `pygame.display.list_modes` and `set_mode` (the mode set is passed in);
  - `clock.tick`.
- `available_fullscreen_modes` and `apply_display_mode` are not modelled. They are display I/O.
- The random angle, the trigonometry and `normalize()` in `TargetState.reset`/`set_params` are
  not modelled. The unit direction is a parameter.
- Floating point is real arithmetic. Decimal constants such as 0.66, 0.85 and 0.16 are exact
  rationals. `int(round(...))` is Python's round-half-to-even on reals.
- `Util.DistanceSq`: symmetry is a separate lemma.
- Updater networking, threads and files are not modelled:
  - `_Worker`, `check_async` and `_http_get_text`;
  - the download thread in `_start_download_for_latest`;
  - `_state_dir`, `_load_json`, `_save_json`, `_downloads_dir` and `_unique_path`;
  - `webbrowser`.
  The stored snooze is a constructor parameter. Opening a URL is a returned effect or flag.
- `detect_os_tag` is not modelled. The os tag is a parameter.
- URLs are modelled as a host plus path segments. `urllib.parse` itself is not modelled.
- The help text content (`_build_help_text`), the small font, `HelpManager`, the HUD text lines
  (`ui_rates_line` and the stats lines) and the debug axis strings are not modelled.
- `Help.HelpDialog.constructor`: the font is fixed at construction (`width`, `lineH`). Changing the
  font afterwards is left out.
- `ControllerManager.list_devices`, `active_label` and `auto_select_first` are not modelled. They
  only read device names or call `select_device`.
- `InputDevices.ControllerManager.SelectDevice`: an opening failure is modelled as `device = None`.
- `MainLoop.Driver.StepWithInput`: `last_input_axis` is not modelled.
- `Text.ParseDecimal`: `int()` is modelled on ASCII digits with an optional sign and surrounding
  whitespace. Other Unicode digits and underscores are not modelled.
- `Text.Lower`: only ASCII letters are lowered. That is enough for the signature line.
- `Updater.VersionKey`: the digit runs are ASCII digits only; `\d` in Python's `re` also matches
  other Unicode decimal digits.
- `Ui.EditedText`: only ASCII digits are typed into the box; `str.isdigit` also accepts other
  Unicode digits.
- `Ui.Step`: the legacy wheel buttons 4 and 5 use the corrected step, so button 5 scrolls one row
  down where ui.py:340 scrolls one row up. The as-written step is `Ui.ButtonStepAsWritten` and
  the discrepancy is listed under Findings.
- `Ui.DropdownRow.HandleEvent`: follows `Ui.Step`, so it takes the same corrected wheel-button
  step.

## Findings

| source | as written | input that shows it | evidently intended | confidence | as-written member | corrected member |
|---|---|---|---|---|---|---|
| source/ui.py:333-342 | mouse button 5 (wheel down) scrolls the dropdown by −1, but `MOUSEWHEEL` with `y = −1` (down) scrolls by +1 (lines 319-329) | expanded dropdown of 20 items at scroll 3, mouse over the list: button 5 gives scroll 2, a downward wheel event gives scroll 4 | button 5 scrolls down, like the downward wheel | medium, not executed | Ui.ButtonStepOpposesWheel | Ui.ButtonStepMatchesWheel |
