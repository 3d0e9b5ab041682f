/**
 * The timing core of the main loop of `main.py`: a fixed-step engine fed by an accumulator of
 * wall-clock time, a render gate with an optional frame-rate cap, interpolation between the
 * last two engine positions, a controller cursor integrated at render time, and the sleep
 * heuristic at the end of each frame. Clock readings, mouse state and device readings are
 * parameters; drawing and event dispatch are not modelled.
 */
module MainLoop {
  import opened Wrappers
  import opened Util
  import Config
  import Simulation
  import Render
  import InputDevices

  /** A frame never feeds more than a quarter of a second into the accumulator. */
  const FrameDtCap: real := 0.25
  /** Remaining times at or below two milliseconds are not worth sleeping for. */
  const SleepThreshold: real := 0.002
  /** Only three quarters of the remaining time is slept, to wake up early. */
  const SleepShare: real := 0.75
  /** The rate setters accept up to 2000 steps or frames per second. */
  const RateCeiling: int := 2000

  /** The period `1 / max(1, fps)` of a rate: positive, at most a second, and exactly one `fps`-th. */
  function Period(fps: int): (dt: real)
    ensures 0.0 < dt <= 1.0
    ensures fps >= 1 ==> dt * fps as real == 1.0
    ensures fps <= 1 ==> dt == 1.0
  {
    var n := if fps >= 1 then fps else 1;
    PeriodBounds(n);
    1.0 / n as real
  }

  lemma PeriodBounds(n: int)
    requires n >= 1
    ensures 0.0 < 1.0 / n as real <= 1.0
  {
    var q := 1.0 / n as real;
    assert q * n as real == 1.0;
    if q > 1.0 {
      MulMonotone(1.0, n as real, q);
      assert false;
    }
    if q <= 0.0 {
      MulPositive(-q, n as real);
      assert false;
    }
  }

  /** A rate of at least one step per second gets a step that divides the second into `fps` parts. */
  lemma PeriodsFillASecond(fps: int)
    requires fps >= 1
    ensures Period(fps) * fps as real == 1.0
    ensures fps >= 2 ==> Period(fps) < 1.0
  {
    if fps >= 2 && Period(fps) >= 1.0 {
      MulMonotone(1.0, Period(fps), fps as real);
      assert false;
    }
  }

  /** `mapping.get(idx, 0)` with `mapping = {0: 0, 2: 1, 1: 2}`: physical mouse button to engine button. */
  function MouseButton(idx: int): (b: int)
    ensures 0 <= b <= 2
  {
    if idx == 2 then 1 else if idx == 1 then 2 else 0
  }

  /** The three physical buttons map one-to-one onto the engine buttons 0, 1 and 2. */
  lemma MouseButtonBijective(i: int, j: int)
    requires 0 <= i < 3 && 0 <= j < 3
    ensures MouseButton(i) == MouseButton(j) ==> i == j
    ensures MouseButton(0) == 0 && MouseButton(2) == 1 && MouseButton(1) == 2
  {
  }

  /** The engine buttons pressed since the last tick, listed in the order of the physical buttons. */
  function MouseEdges(prev: seq<bool>, cur: seq<bool>): seq<int>
    requires |prev| == |cur|
  {
    var phys := InputDevices.RisingEdges(prev, cur);
    seq(|phys|, k requires 0 <= k < |phys| => MouseButton(phys[k]))
  }

  /**
   * A mouse edge is reported for a physical button exactly when it went from up to down, as that
   * button's engine number, and the edges come in increasing physical order.
   */
  lemma MouseEdgesSpec(prev: seq<bool>, cur: seq<bool>)
    requires |prev| == |cur| == 3
    ensures forall b :: b in MouseEdges(prev, cur) <==>
              exists idx :: 0 <= idx < 3 && cur[idx] && !prev[idx] && MouseButton(idx) == b
    ensures |MouseEdges(prev, cur)| <= 3
  {
    var phys := InputDevices.RisingEdges(prev, cur);
    InputDevices.RisingEdgesSpec(prev, cur);
    var edges := MouseEdges(prev, cur);
    forall b
      ensures b in edges <==> exists idx :: 0 <= idx < 3 && cur[idx] && !prev[idx] && MouseButton(idx) == b
    {
      if b in edges {
        var k :| 0 <= k < |edges| && edges[k] == b;
        assert phys[k] in phys;
      }
      if exists idx :: 0 <= idx < 3 && cur[idx] && !prev[idx] && MouseButton(idx) == b {
        var idx :| 0 <= idx < 3 && cur[idx] && !prev[idx] && MouseButton(idx) == b;
        var k :| 0 <= k < |phys| && phys[k] == idx;
        assert edges[k] == b;
      }
    }
  }

  /** Three fresh presses give the engine buttons in physical order 0, 1, 2: that is 0, 2, 1. */
  lemma MouseEdgesAllPressed()
    ensures MouseEdges([false, false, false], [true, true, true]) == [0, 2, 1]
    ensures MouseEdges([true, true, true], [true, true, true]) == []
  {
    assert InputDevices.RisingEdges([false, false, false], [true, true, true]) == [0, 1, 2] by {
      assert [false, false, false][..2] == [false, false] && [true, true, true][..2] == [true, true];
      assert [false, false][..1] == [false] && [true, true][..1] == [true];
    }
    assert InputDevices.RisingEdges([true, true, true], [true, true, true]) == [] by {
      assert [true, true, true][..2] == [true, true];
      assert [true, true][..1] == [true];
    }
  }

  /**
   * `sleep_for` of the frame's end, given the time until the next engine step and until the next
   * render is due: the smaller of the two that are positive, if any; the loop then sleeps for
   * three quarters of it, but only when it exceeds the threshold.
   */
  function SleepTime(nextEngineIn: real, nextRenderIn: real): (r: Option<real>)
    ensures r.Some? ==> r.value > SleepShare * SleepThreshold
    ensures nextEngineIn <= SleepThreshold && nextRenderIn <= SleepThreshold ==> r.None?
  {
    var sleepFor :=
      if nextEngineIn > 0.0 && nextRenderIn > 0.0 then Some(MinR(nextEngineIn, nextRenderIn))
      else if nextEngineIn > 0.0 then Some(nextEngineIn)
      else if nextRenderIn > 0.0 then Some(nextRenderIn)
      else None;
    if sleepFor.Some? && sleepFor.value > SleepThreshold then Some(sleepFor.value * SleepShare) else None
  }

  /**
   * The loop sleeps exactly when the nearest positive deadline lies beyond the threshold, and
   * then for three quarters of that deadline, never past either deadline.
   */
  lemma SleepTimeSpec(e: real, v: real)
    ensures SleepTime(e, v).Some? ==>
              (SleepTime(e, v).value == SleepShare * e || SleepTime(e, v).value == SleepShare * v)
    ensures SleepTime(e, v).Some? ==>
              (e > 0.0 ==> SleepTime(e, v).value < e) && (v > 0.0 ==> SleepTime(e, v).value < v)
    ensures SleepTime(e, v).Some? ==> SleepTime(e, v).value > SleepShare * SleepThreshold
    ensures e > 0.0 && v > 0.0 && SleepTime(e, v).Some? ==> SleepTime(e, v).value == SleepShare * MinR(e, v)
    ensures e > 0.0 && v <= 0.0 && SleepTime(e, v).Some? ==> SleepTime(e, v).value == SleepShare * e
    ensures e <= 0.0 && v > 0.0 && SleepTime(e, v).Some? ==> SleepTime(e, v).value == SleepShare * v
    ensures e <= 0.0 && v <= 0.0 ==> SleepTime(e, v).None?
    ensures SleepTime(e, v).None? <==>
              (e <= SleepThreshold || (v > 0.0 && v < e)) && (v <= SleepThreshold || (e > 0.0 && e <= v))
  {
  }

  /** With rendering uncapped the render deadline is always now, so only the engine's deadline counts. */
  lemma UncappedSleepFollowsEngine(e: real)
    ensures SleepTime(e, 0.0) == (if e > SleepThreshold then Some(SleepShare * e) else None)
  {
  }

  /**
   * How many engine steps the drain performs on an accumulator of `acc`: one for every whole
   * `dt` in it.
   */
  function StepsDue(acc: real, dt: real): (n: nat)
    requires dt > 0.0
    decreases (acc / dt).Floor
  {
    if acc >= dt then
      DrainStepFloor(acc, dt);
      1 + StepsDue(acc - dt, dt)
    else 0
  }

  /** Removing one `dt` from an accumulator holding at least one removes one whole step from it. */
  lemma DrainStepFloor(acc: real, dt: real)
    requires acc >= dt > 0.0
    ensures (acc / dt).Floor >= 1
    ensures ((acc - dt) / dt).Floor == (acc / dt).Floor - 1
  {
    var q := acc / dt;
    var q1 := (acc - dt) / dt;
    assert q * dt == acc;
    assert q1 * dt == acc - dt;
    var d := q - q1 - 1.0;
    assert d * dt == q * dt - q1 * dt - dt;
    if d > 0.0 {
      MulPositive(d, dt);
    } else if d < 0.0 {
      MulPositive(-d, dt);
    }
    QuotientAtLeastOne(acc, dt);
  }

  /** The steps due on a non-negative accumulator are its whole number of `dt`s, and what is left is below `dt`. */
  lemma {:induction false} StepsDueSpec(acc: real, dt: real)
    requires acc >= 0.0 && dt > 0.0
    ensures StepsDue(acc, dt) == (acc / dt).Floor
    ensures 0.0 <= acc - StepsDue(acc, dt) as real * dt < dt
    decreases (acc / dt).Floor
  {
    if acc >= dt {
      DrainStepFloor(acc, dt);
      StepsDueSpec(acc - dt, dt);
      var n := StepsDue(acc - dt, dt);
      assert acc - (1 + n) as real * dt == (acc - dt) - n as real * dt;
    } else {
      var q := acc / dt;
      assert q * dt == acc;
      if q >= 1.0 {
        MulMonotone(1.0, q, dt);
        assert false;
      }
      if q < 0.0 {
        MulPositive(-q, dt);
        assert false;
      }
    }
  }

  /** The accumulator after `n` engine steps of `dt` were taken from `acc`, one subtraction at a time. */
  function Drained(acc: real, dt: real, n: nat): real {
    if n == 0 then acc else Drained(acc, dt, n - 1) - dt
  }

  /** Taking `dt` off `n` times takes `n * dt` off. */
  lemma {:induction false} DrainedIsProduct(acc: real, dt: real, n: nat)
    ensures Drained(acc, dt, n) == acc - n as real * dt
  {
    if n > 0 {
      DrainedIsProduct(acc, dt, n - 1);
      assert n as real * dt == (n - 1) as real * dt + dt;
    }
  }

  /**
   * The controller cursor after a frame of `frameDt` seconds with the stick at `stick`: a
   * centred stick snaps it onto the ball at `ballPos`; otherwise it moves by
   * `stick * speed * frameDt` and is clamped to the ball's box.
   */
  function CursorStep(cursor: Simulation.Vec2, ballPos: Simulation.Vec2, stick: (real, real), speed: real,
                      frameDt: real, w: int, h: int, br: int): Simulation.Vec2
  {
    if stick.0 == 0.0 && stick.1 == 0.0 then ballPos
    else Simulation.ClampPoint(Simulation.Moved(cursor, speed, frameDt, stick.0, stick.1), w, h, Config.CanvasMargin, br)
  }

  /**
   * The cursor never leaves the ball's box once the ball is in it: a centred stick puts it on
   * the ball, any other stick clamps it; and a centred stick ignores where the cursor was.
   */
  lemma CursorStepStaysInBox(cursor: Simulation.Vec2, ballPos: Simulation.Vec2, stick: (real, real), speed: real,
                             frameDt: real, w: int, h: int, br: int)
    requires Simulation.InsetBoxNonEmpty(w, h, Config.CanvasMargin, br)
    requires Simulation.InInsetBox(ballPos, w, h, Config.CanvasMargin, br)
    ensures Simulation.InInsetBox(CursorStep(cursor, ballPos, stick, speed, frameDt, w, h, br), w, h, Config.CanvasMargin, br)
    ensures stick == (0.0, 0.0) ==> CursorStep(cursor, ballPos, stick, speed, frameDt, w, h, br) == ballPos
  {
  }

  /** With no time elapsed, a cursor already in the box stays where it is whatever the stick does (unless centred). */
  lemma CursorStepStillFrame(cursor: Simulation.Vec2, ballPos: Simulation.Vec2, stick: (real, real), speed: real,
                             w: int, h: int, br: int)
    requires Simulation.InInsetBox(cursor, w, h, Config.CanvasMargin, br)
    requires stick != (0.0, 0.0)
    ensures CursorStep(cursor, ballPos, stick, speed, 0.0, w, h, br) == cursor
  {
    assert Simulation.Moved(cursor, speed, 0.0, stick.0, stick.1) == cursor;
  }

  /** What the loop reads for one engine step: the clock, the mouse, and the controller's axes and buttons. */
  datatype TickInput = TickInput(clock: real, mouseX: int, mouseY: int, pressed: seq<bool>, axes: seq<real>, buttons: seq<bool>)

  /** The variables of `main` that the frame loop updates, around the engine state, the controller and the two meters. */
  /**
   * The mouse-button scan of a mouse-mode engine step, from the button memory `base` and the
   * debug line `shown0`: each physical button pressed now and not before yields its engine
   * button (and names it in the debug line), and the memory takes the current state.
   */
  method MouseScan(base: seq<bool>, pressed: seq<bool>, shown0: string)
    returns (edges: seq<int>, memory: seq<bool>, shown: string)
    requires |base| == |pressed| == 3
    ensures edges == MouseEdges(base, pressed)
    ensures memory == pressed
    ensures shown == (if edges == [] then shown0 else Config.ButtonLabel(edges[|edges| - 1]))
  {
    memory := base;
    shown := shown0;
    edges := [];
    for idx := 0 to 3
      invariant |memory| == 3
      invariant forall k :: 0 <= k < idx ==> memory[k] == pressed[k]
      invariant forall k :: idx <= k < 3 ==> memory[k] == base[k]
      invariant edges == MouseEdges(base[..idx], pressed[..idx])
      invariant edges == [] ==> shown == shown0
      invariant edges != [] ==> shown == Config.ButtonLabel(edges[|edges| - 1])
    {
      MouseEdgesStep(base, pressed, idx);
      var cur := pressed[idx];
      var prev := memory[idx];
      if cur && !prev {
        var b := MouseButton(idx);
        edges := edges + [b];
        shown := Config.ButtonLabel(b);
      }
      memory := memory[idx := cur];
    }
    assert base[..3] == base && pressed[..3] == pressed;
  }

  /** One more physical button visited: its engine button joins the edges when it went from up to down. */
  lemma MouseEdgesStep(base: seq<bool>, pressed: seq<bool>, idx: nat)
    requires |base| == |pressed| && idx < |pressed|
    ensures MouseEdges(base[..idx + 1], pressed[..idx + 1])
            == MouseEdges(base[..idx], pressed[..idx])
               + (if pressed[idx] && !base[idx] then [MouseButton(idx)] else [])
  {
    assert base[..idx + 1][..idx] == base[..idx] && pressed[..idx + 1][..idx] == pressed[..idx];
  }

  class Driver {
    var accumulator: real
    var lastTime: real
    var lastRender: real
    var cursor: Simulation.Vec2
    var prevMouseButtons: seq<bool>
    var lastInputButton: string
    // settings changed by the HUD widgets
    var engineFps: int
    var visualFps: int
    var interp: bool
    var deadzoneRelax: bool
    var mouseMode: bool
    var targetSizePct: int
    var targetSpeed: int
    const state: Simulation.EngineState
    const ctrl: InputDevices.ControllerManager
    const engineMeter: Render.RateMeter
    const visualMeter: Render.RateMeter

    /** The settings a frame's engine steps and render never change. */
    twostate predicate SettingsKept()
      reads this
    {
      && engineFps == old(engineFps) && visualFps == old(visualFps) && interp == old(interp)
      && deadzoneRelax == old(deadzoneRelax) && mouseMode == old(mouseMode)
      && targetSizePct == old(targetSizePct) && targetSpeed == old(targetSpeed)
    }

    /**
     * The set-up before the loop: default rates, interpolation on, deadzone relaxation at its default (on), the
     * target off at default size and speed, controller mode, the cursor on the ball, and the
     * clock started at `now`. `dir` is the direction the target's reset draws.
     */
    constructor (now: real, w: int, h: int, dir: Simulation.Vec2, ctrl: InputDevices.ControllerManager)
      ensures accumulator == 0.0 && lastTime == now && lastRender == 0.0
      ensures engineFps == Config.DefaultEngineFps && visualFps == Config.DefaultVisualFps
      ensures interp && deadzoneRelax == Config.DefaultDeadzoneRelaxation && !mouseMode
      ensures targetSizePct == Config.TargetSizePctDefault && targetSpeed == Config.TargetSpeedPxSDefault
      ensures prevMouseButtons == [false, false, false] && lastInputButton == ""
      ensures cursor == state.pos == Simulation.Vec2(w as real * 0.5, h as real * 0.5)
      ensures !state.target.enabled
      ensures this.ctrl == ctrl
      ensures engineMeter.value == 0.0 && visualMeter.value == 0.0
      ensures fresh(state) && fresh(state.visual) && fresh(state.target) && fresh(engineMeter) && fresh(visualMeter)
    {
      var s := new Simulation.EngineState(w, h, Config.CanvasMargin, dir);
      s.target.SetParams(s.ballRadius, Config.TargetSizePctDefault, Config.TargetSpeedPxSDefault, dir);
      var em := new Render.RateMeter(now);
      var vm := new Render.RateMeter(now);
      engineFps := Config.DefaultEngineFps;
      visualFps := Config.DefaultVisualFps;
      interp := true;
      deadzoneRelax := Config.DefaultDeadzoneRelaxation;
      mouseMode := false;
      targetSizePct := Config.TargetSizePctDefault;
      targetSpeed := Config.TargetSpeedPxSDefault;
      prevMouseButtons := [false, false, false];
      lastInputButton := "";
      cursor := s.pos;
      accumulator := 0.0;
      lastTime := now;
      lastRender := 0.0;
      state := s;
      this.ctrl := ctrl;
      engineMeter := em;
      visualMeter := vm;
    }

    /** `current_deadzone`: the relaxed deadzone when relaxation is on, none otherwise. */
    function CurrentDeadzone(): (d: real)
      reads this
      ensures d == (if deadzoneRelax then Config.RelaxedDeadzone else Config.UnrelaxedDeadzone)
      ensures 0.0 <= d < 1.0
    {
      if deadzoneRelax then Config.RelaxedDeadzone else Config.UnrelaxedDeadzone
    }

    /** `set_engine_fps`: the engine rate, clamped to `[1, 2000]`. */
    method SetEngineFps(v: int)
      modifies this
      ensures engineFps == ClampInt(v, 1, RateCeiling)
      ensures 1 <= engineFps <= RateCeiling && (1 <= v <= RateCeiling ==> engineFps == v)
      ensures visualFps == old(visualFps) && accumulator == old(accumulator) && lastRender == old(lastRender)
    {
      engineFps := ClampInt(v, 1, RateCeiling);
    }

    /** `set_visual_fps`: the render cap, clamped to `[0, 2000]`; 0 means uncapped. */
    method SetVisualFps(v: int)
      modifies this
      ensures visualFps == ClampInt(v, 0, RateCeiling)
      ensures 0 <= visualFps <= RateCeiling && (0 <= v <= RateCeiling ==> visualFps == v)
      ensures engineFps == old(engineFps) && accumulator == old(accumulator) && lastRender == old(lastRender)
    {
      visualFps := ClampInt(v, 0, RateCeiling);
    }

    /** `set_target`: the target switched on (reset inside the `w` x `h` window) or off. */
    method SetTarget(v: bool, w: int, h: int, dir: Simulation.Vec2)
      modifies state.target
      ensures state.target.enabled == v
      ensures v ==> state.target.pos == Simulation.ClampPoint(Simulation.Vec2(w as real * 0.65, h as real * 0.45),
                                                              w, h, Config.CanvasMargin, state.target.radiusPx)
      ensures state.target.sizePct == old(state.target.sizePct) && state.target.speedPxS == old(state.target.speedPxS)
    {
      state.SetTargetEnabled(v, w, h, Config.CanvasMargin, dir);
    }

    /**
     * `set_target_size`: the size clamped to its range and handed to the target, whose radius
     * follows; an enabled target is then clamped into the (possibly smaller) box its new radius leaves.
     */
    method SetTargetSize(v: int, w: int, h: int, dir: Simulation.Vec2)
      modifies this, state, state.target
      ensures targetSizePct == ClampInt(v, Config.TargetSizePctMin, Config.TargetSizePctMax)
      ensures state.target.sizePct == targetSizePct
      ensures state.target.speedPxS == ClampInt(targetSpeed, Config.TargetSpeedPxSMin, Config.TargetSpeedPxSMax)
      ensures state.target.radiusPx == Simulation.TargetRadius(state.ballRadius, targetSizePct)
      ensures state.target.enabled == old(state.target.enabled)
      ensures state.target.enabled && Simulation.InsetBoxNonEmpty(w, h, Config.CanvasMargin, state.target.radiusPx) ==>
                Simulation.InInsetBox(state.target.pos, w, h, Config.CanvasMargin, state.target.radiusPx)
      ensures !state.target.enabled ==> state.target.pos == old(state.target.pos) && state.pos == old(state.pos)
      ensures targetSpeed == old(targetSpeed) && state.ballRadius == old(state.ballRadius)
    {
      targetSizePct := ClampInt(v, Config.TargetSizePctMin, Config.TargetSizePctMax);
      state.target.SetParams(state.ballRadius, targetSizePct, targetSpeed, dir);
      if state.target.enabled {
        state.ClampStateToBounds(w, h, Config.CanvasMargin);
      }
    }

    /** `set_target_speed`: the speed clamped to its range and handed to the target. */
    method SetTargetSpeed(v: int, dir: Simulation.Vec2)
      modifies this, state.target
      ensures targetSpeed == ClampInt(v, Config.TargetSpeedPxSMin, Config.TargetSpeedPxSMax)
      ensures state.target.speedPxS == targetSpeed
      ensures state.target.vel == Simulation.Vec2(dir.x * targetSpeed as real, dir.y * targetSpeed as real)
      ensures state.target.pos == old(state.target.pos) && state.target.enabled == old(state.target.enabled)
      ensures targetSizePct == old(targetSizePct)
    {
      targetSpeed := ClampInt(v, Config.TargetSpeedPxSMin, Config.TargetSpeedPxSMax);
      state.target.SetParams(state.ballRadius, targetSizePct, targetSpeed, dir);
    }

    /** `set_mouse_mode`: the mouse memory forgets every button; entering controller mode puts the cursor on the ball. */
    method SetMouseMode(v: bool)
      modifies this
      ensures mouseMode == v && prevMouseButtons == [false, false, false]
      ensures !v ==> cursor == state.pos
      ensures v ==> cursor == old(cursor)
      ensures accumulator == old(accumulator) && engineFps == old(engineFps)
    {
      mouseMode := v;
      prevMouseButtons := [false, false, false];
      if !v {
        cursor := state.pos;
      }
    }

    /** The window-resize event: the state is clamped into the new window and the cursor put back on the ball. */
    method Resize(w: int, h: int)
      modifies this, state, state.target
      ensures state.pos == Simulation.ClampPoint(old(state.pos), w, h, Config.CanvasMargin, state.ballRadius)
      ensures cursor == state.pos
      ensures Simulation.InsetBoxNonEmpty(w, h, Config.CanvasMargin, state.ballRadius) ==>
                Simulation.InInsetBox(cursor, w, h, Config.CanvasMargin, state.ballRadius)
      ensures accumulator == old(accumulator) && mouseMode == old(mouseMode)
    {
      state.ClampStateToBounds(w, h, Config.CanvasMargin);
      cursor := state.pos;
    }

    /**
     * The start of a frame at clock reading `now`: the time since the previous frame, capped at
     * a quarter second, is added to the accumulator.
     */
    method BeginFrame(now: real) returns (frameDt: real)
      modifies this
      ensures frameDt == MinR(now - old(lastTime), FrameDtCap)
      ensures frameDt <= FrameDtCap && (now >= old(lastTime) ==> frameDt >= 0.0)
      ensures lastTime == now && accumulator == old(accumulator) + frameDt
      ensures lastRender == old(lastRender) && cursor == old(cursor) && SettingsKept()
    {
      frameDt := now - lastTime;
      lastTime := now;
      frameDt := MinR(frameDt, FrameDtCap);
      accumulator := accumulator + frameDt;
    }

    /**
     * The render-time cursor of controller mode, with `stick` the frame's `peek_axes` reading
     * (`ctrl.PeekAxes(CurrentDeadzone(), axes)` for the stick's raw axes): see `CursorStep`.
     * Mouse mode leaves it alone.
     */
    method TrackCursor(frameDt: real, stick: (real, real), w: int, h: int)
      modifies this
      ensures mouseMode ==> cursor == old(cursor)
      ensures !mouseMode ==>
                cursor == CursorStep(old(cursor), state.pos, stick, state.ballSpeed, frameDt, w, h, state.ballRadius)
      ensures accumulator == old(accumulator) && lastTime == old(lastTime) && lastRender == old(lastRender)
      ensures SettingsKept()
    {
      if !mouseMode {
        if stick.0 == 0.0 && stick.1 == 0.0 {
          cursor := state.pos;
        } else {
          var br := state.ballRadius;
          cursor := Simulation.Moved(cursor, state.ballSpeed, frameDt, stick.0, stick.1);
          cursor := cursor.(x := Clamp(cursor.x, (Config.CanvasMargin + br) as real, (w - Config.CanvasMargin - br) as real));
          cursor := cursor.(y := Clamp(cursor.y, (Config.CanvasMargin + br) as real, (h - Config.CanvasMargin - br) as real));
        }
      }
    }

    /** The mouse-button scan of a mouse-mode engine step, on the driver's button memory: see `MouseScan`. */
    method ScanMouse(pressed: seq<bool>) returns (edges: seq<int>)
      requires |prevMouseButtons| == |pressed| == 3
      modifies this
      ensures edges == MouseEdges(old(prevMouseButtons), pressed)
      ensures prevMouseButtons == pressed
      ensures lastInputButton == (if edges == [] then old(lastInputButton) else Config.ButtonLabel(edges[|edges| - 1]))
      ensures accumulator == old(accumulator) && cursor == old(cursor) && SettingsKept()
      ensures lastTime == old(lastTime) && lastRender == old(lastRender)
    {
      var memory, shown;
      edges, memory, shown := MouseScan(prevMouseButtons, pressed, lastInputButton);
      prevMouseButtons := memory;
      lastInputButton := shown;
    }

    /**
     * The engine step of one pass of the drain loop: read the input (the mouse's edges and
     * position in mouse mode, a controller sample otherwise) and advance the engine by `dt`.
     * The returned edges are the ones the engine applied.
     */
    method StepWithInput(dt: real, w: int, h: int, inp: TickInput) returns (edges: seq<int>)
      requires |prevMouseButtons| == |inp.pressed| == 3
      requires ctrl.Valid() && (ctrl.active.Some? ==> |inp.buttons| == ctrl.active.value.numButtons)
      modifies this, state, state.visual, state.target, ctrl
      ensures state.prevPos == old(state.pos)
      ensures mouseMode ==>
                && edges == MouseEdges(old(prevMouseButtons), inp.pressed)
                && state.pos == Simulation.ClampPoint(Simulation.Vec2(inp.mouseX as real, inp.mouseY as real),
                                                      w, h, Config.CanvasMargin, state.ballRadius)
                && prevMouseButtons == inp.pressed
      ensures !mouseMode ==>
                var (lx, ly) := old(ctrl.PeekAxes(CurrentDeadzone(), inp.axes));
                && state.pos == Simulation.StepBall(old(state.pos), state.ballSpeed, dt, lx, ly, None,
                                                    w, h, Config.CanvasMargin, state.ballRadius)
                && lastInputButton == ctrl.lastButtonDebug
                && prevMouseButtons == old(prevMouseButtons)
      ensures !mouseMode && old(ctrl.active).None? ==> edges == []
      ensures !mouseMode && old(ctrl.active).Some? ==>
                edges == InputDevices.RisingEdges(
                           if |old(ctrl.prevButtons)| == |inp.buttons| then old(ctrl.prevButtons)
                           else InputDevices.AllFalse(|inp.buttons|), inp.buttons)
      ensures Simulation.InsetBoxNonEmpty(w, h, Config.CanvasMargin, state.ballRadius) ==>
                Simulation.InInsetBox(state.pos, w, h, Config.CanvasMargin, state.ballRadius)
      ensures state.visual.activeBlinkColor == Simulation.BlinkColor(old(state.visual.activeBlinkColor), edges)
      ensures 0.0 <= old(state.visual.glowElapsed) <= Config.GlowDurationS && dt >= 0.0 ==>
                0.0 <= state.visual.glowElapsed <= Config.GlowDurationS
      ensures state.ballRadius == old(state.ballRadius) && state.ballSpeed == old(state.ballSpeed)
      ensures state.target.enabled == old(state.target.enabled) && state.target.radiusPx == old(state.target.radiusPx)
      ensures ctrl.Valid() && ctrl.active == old(ctrl.active)
      ensures accumulator == old(accumulator) && cursor == old(cursor) && lastTime == old(lastTime)
      ensures lastRender == old(lastRender) && SettingsKept()
    {
      if mouseMode {
        edges := ScanMouse(inp.pressed);
        var over := Simulation.Vec2(inp.mouseX as real, inp.mouseY as real);
        state.EngineStep(dt, w, h, Config.CanvasMargin, 0.0, 0.0, edges, edges != [], Some(over));
      } else {
        var sample := ctrl.Sample(CurrentDeadzone(), inp.axes, inp.buttons);
        lastInputButton := ctrl.lastButtonDebug;
        edges := sample.buttonDownEdges;
        state.EngineStep(dt, w, h, Config.CanvasMargin, sample.lx, sample.ly,
                         sample.buttonDownEdges, sample.anyButtonEdge, None);
      }
    }

    /**
     * One pass of the drain loop: one engine step with the input `inp`, `dt` taken off the
     * accumulator, and one tick of the engine meter at the clock reading `inp.clock`.
     */
    method EngineTick(dt: real, w: int, h: int, inp: TickInput) returns (edges: seq<int>)
      requires dt > 0.0
      requires |prevMouseButtons| == |inp.pressed| == 3
      requires ctrl.Valid() && (ctrl.active.Some? ==> |inp.buttons| == ctrl.active.value.numButtons)
      modifies this, state, state.visual, state.target, ctrl, engineMeter
      ensures accumulator == old(accumulator) - dt
      ensures state.prevPos == old(state.pos)
      ensures mouseMode ==>
                && edges == MouseEdges(old(prevMouseButtons), inp.pressed)
                && state.pos == Simulation.ClampPoint(Simulation.Vec2(inp.mouseX as real, inp.mouseY as real),
                                                      w, h, Config.CanvasMargin, state.ballRadius)
      ensures !mouseMode ==>
                var (lx, ly) := old(ctrl.PeekAxes(CurrentDeadzone(), inp.axes));
                state.pos == Simulation.StepBall(old(state.pos), state.ballSpeed, dt, lx, ly, None,
                                                 w, h, Config.CanvasMargin, state.ballRadius)
      ensures state.visual.activeBlinkColor == Simulation.BlinkColor(old(state.visual.activeBlinkColor), edges)
      ensures Simulation.InsetBoxNonEmpty(w, h, Config.CanvasMargin, state.ballRadius) ==>
                Simulation.InInsetBox(state.pos, w, h, Config.CanvasMargin, state.ballRadius)
      ensures 0.0 <= old(state.visual.glowElapsed) <= Config.GlowDurationS ==>
                0.0 <= state.visual.glowElapsed <= Config.GlowDurationS
      ensures state.ballRadius == old(state.ballRadius) && state.target.enabled == old(state.target.enabled)
      ensures Render.Ticked(old(engineMeter.windowStart), old(engineMeter.count), old(engineMeter.value), inp.clock,
                            engineMeter.windowStart, engineMeter.count, engineMeter.value)
      ensures old(engineMeter.value) >= 0.0 ==> engineMeter.value >= 0.0
      ensures |prevMouseButtons| == 3 && ctrl.Valid() && ctrl.active == old(ctrl.active)
      ensures cursor == old(cursor) && lastTime == old(lastTime) && lastRender == old(lastRender) && SettingsKept()
    {
      edges := StepWithInput(dt, w, h, inp);
      accumulator := accumulator - dt;
      engineMeter.Tick(inp.clock);
    }

    /**
     * The drain: while a whole engine period is in the accumulator, one engine step is taken with
     * the reading `inputs(k)` of the `k`-th step. It takes exactly `StepsDue` steps, leaves less
     * than one period behind, and never drives a non-negative accumulator below zero.
     */
    method Drain(w: int, h: int, inputs: nat -> TickInput) returns (steps: nat)
      requires |prevMouseButtons| == 3 && forall k :: |inputs(k).pressed| == 3
      requires ctrl.Valid() && (ctrl.active.Some? ==> forall k :: |inputs(k).buttons| == ctrl.active.value.numButtons)
      modifies this, state, state.visual, state.target, ctrl, engineMeter
      ensures accumulator == old(accumulator) - steps as real * Period(engineFps)
      ensures accumulator < Period(engineFps)
      ensures steps == StepsDue(old(accumulator), Period(engineFps))
      ensures old(accumulator) >= 0.0 ==> 0.0 <= accumulator && steps == (old(accumulator) / Period(engineFps)).Floor
      ensures steps > 0 && Simulation.InsetBoxNonEmpty(w, h, Config.CanvasMargin, state.ballRadius) ==>
                Simulation.InInsetBox(state.pos, w, h, Config.CanvasMargin, state.ballRadius)
      ensures steps == 0 ==> state.pos == old(state.pos)
      ensures state.ballRadius == old(state.ballRadius) && state.target.enabled == old(state.target.enabled)
      ensures 0.0 <= old(state.visual.glowElapsed) <= Config.GlowDurationS ==>
                0.0 <= state.visual.glowElapsed <= Config.GlowDurationS
      ensures old(engineMeter.value) >= 0.0 ==> engineMeter.value >= 0.0
      ensures ctrl.Valid() && ctrl.active == old(ctrl.active)
      ensures cursor == old(cursor) && lastTime == old(lastTime) && lastRender == old(lastRender) && SettingsKept()
    {
      var dt := Period(engineFps);
      steps := 0;
      while accumulator >= dt
        invariant accumulator == Drained(old(accumulator), dt, steps)
        invariant old(accumulator) >= 0.0 ==> accumulator >= 0.0
        invariant StepsDue(old(accumulator), dt) == steps + StepsDue(accumulator, dt)
        invariant steps > 0 && Simulation.InsetBoxNonEmpty(w, h, Config.CanvasMargin, state.ballRadius) ==>
                    Simulation.InInsetBox(state.pos, w, h, Config.CanvasMargin, state.ballRadius)
        invariant steps == 0 ==> state.pos == old(state.pos)
        invariant state.ballRadius == old(state.ballRadius) && state.target.enabled == old(state.target.enabled)
        invariant 0.0 <= old(state.visual.glowElapsed) <= Config.GlowDurationS ==>
                    0.0 <= state.visual.glowElapsed <= Config.GlowDurationS
        invariant old(engineMeter.value) >= 0.0 ==> engineMeter.value >= 0.0
        invariant |prevMouseButtons| == 3
        invariant ctrl.Valid() && ctrl.active == old(ctrl.active)
        invariant cursor == old(cursor) && lastTime == old(lastTime) && lastRender == old(lastRender) && SettingsKept()
        decreases StepsDue(accumulator, dt)
      {
        ghost var due := StepsDue(accumulator, dt);
        assert due == 1 + StepsDue(accumulator - dt, dt);
        var _ := EngineTick(dt, w, h, inputs(steps));
        steps := steps + 1;
      }
      DrainedIsProduct(old(accumulator), dt, steps);
      if old(accumulator) >= 0.0 {
        StepsDueSpec(old(accumulator), dt);
      }
    }

    /**
     * The render gate at clock reading `now`: every frame when the cap is 0, otherwise once a
     * full visual period has passed since the last render. A render restarts the period at
     * `now` and ticks the visual meter at `tickClock`, the reading once the frame is drawn.
     */
    method RenderGate(now: real, tickClock: real) returns (doRender: bool)
      modifies this, visualMeter
      ensures doRender <==> visualFps <= 0 || now - old(lastRender) >= Period(visualFps)
      ensures doRender ==> lastRender == now
      ensures doRender ==> Render.Ticked(old(visualMeter.windowStart), old(visualMeter.count), old(visualMeter.value),
                                         tickClock, visualMeter.windowStart, visualMeter.count, visualMeter.value)
      ensures !doRender ==> lastRender == old(lastRender) && unchanged(visualMeter)
      ensures accumulator == old(accumulator) && lastTime == old(lastTime) && cursor == old(cursor) && SettingsKept()
    {
      doRender := false;
      if visualFps <= 0 {
        doRender := true;
      } else {
        var visualDt := Period(visualFps);
        if now - lastRender >= visualDt {
          doRender := true;
        }
      }
      if doRender {
        lastRender := now;
        visualMeter.Tick(tickClock);
      }
    }

    /** How far the render is between the previous and the current engine position: the unused part of a period. */
    function Alpha(): (a: real)
      reads this
      ensures 0.0 <= a <= 1.0
      ensures 0.0 <= accumulator < Period(engineFps) ==> a * Period(engineFps) == accumulator
      ensures accumulator <= 0.0 ==> a == 0.0
      ensures accumulator >= Period(engineFps) ==> a == 1.0
    {
      Clamp(accumulator / Period(engineFps), 0.0, 1.0)
    }

    /**
     * The position the ball is drawn at: with interpolation on, `alpha` of the way from the
     * previous engine position to the current one; with it off, the current one.
     */
    function RenderPos(): (p: Simulation.Vec2)
      reads this, state
      ensures !interp ==> p == state.pos
      ensures interp ==> && MinR(state.prevPos.x, state.pos.x) <= p.x <= MaxR(state.prevPos.x, state.pos.x)
                         && MinR(state.prevPos.y, state.pos.y) <= p.y <= MaxR(state.prevPos.y, state.pos.y)
      ensures interp && state.prevPos == state.pos ==> p == state.pos
      ensures interp ==> p == Simulation.Vec2(Lerp(state.prevPos.x, state.pos.x, Alpha()), Lerp(state.prevPos.y, state.pos.y, Alpha()))
      ensures interp && accumulator <= 0.0 ==> p == state.prevPos
      ensures interp && accumulator >= Period(engineFps) ==> p == state.pos
    {
      if interp && Period(engineFps) > 0.0 then
        var alpha := Alpha();
        Simulation.Vec2(Lerp(state.prevPos.x, state.pos.x, alpha), Lerp(state.prevPos.y, state.pos.y, alpha))
      else state.pos
    }

    /** The time until the next engine step is due, never negative. */
    function NextEngineIn(): (t: real)
      reads this
      ensures t >= 0.0
      ensures accumulator >= 0.0 ==> t <= Period(engineFps)
      ensures t > 0.0 <==> accumulator < Period(engineFps)
    {
      MaxR(0.0, Period(engineFps) - accumulator)
    }

    /** The time, at clock reading `now`, until the next render is due; always 0 when rendering is uncapped. */
    function NextRenderIn(now: real): (t: real)
      reads this
      ensures t >= 0.0
      ensures visualFps <= 0 ==> t == 0.0
      ensures visualFps > 0 && now <= lastRender ==> t >= Period(visualFps)
      ensures visualFps > 0 ==> (t == 0.0 <==> now >= lastRender + Period(visualFps))
      ensures visualFps > 0 && t > 0.0 ==> now + t == lastRender + Period(visualFps)
    {
      if visualFps <= 0 then 0.0 else MaxR(0.0, (lastRender + Period(visualFps)) - now)
    }

    /**
     * The end of the frame, at clock reading `now`: how long the loop sleeps, if at all. Right
     * after a drain the engine's deadline is still ahead, so only an overdue render keeps it awake.
     */
    function FrameSleep(now: real): (r: Option<real>)
      reads this
      ensures r.Some? ==> r.value > 0.0
      ensures r.Some? && NextEngineIn() > 0.0 ==> r.value < NextEngineIn()
      ensures r.Some? && NextRenderIn(now) > 0.0 ==> r.value < NextRenderIn(now)
      ensures r.Some? && NextEngineIn() > 0.0 && NextRenderIn(now) > 0.0 ==>
                r.value == SleepShare * MinR(NextEngineIn(), NextRenderIn(now))
      ensures r.Some? && NextEngineIn() > 0.0 && NextRenderIn(now) == 0.0 ==> r.value == SleepShare * NextEngineIn()
      ensures r.Some? && NextEngineIn() == 0.0 && NextRenderIn(now) > 0.0 ==> r.value == SleepShare * NextRenderIn(now)
      ensures NextEngineIn() == 0.0 && NextRenderIn(now) == 0.0 ==> r.None?
      ensures 0.0 <= accumulator < Period(engineFps) - SleepThreshold && visualFps <= 0 ==>
                r == Some(SleepShare * (Period(engineFps) - accumulator))
    {
      SleepTimeSpec(NextEngineIn(), NextRenderIn(now));
      SleepTime(NextEngineIn(), NextRenderIn(now))
    }
  }
}
