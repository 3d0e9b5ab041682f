/**
 * The fixed-step simulation of `simulation.py`: one ball driven by a stick (or placed by the
 * mouse), a glow that blinks in the colour of the last pressed button, and an optional
 * target that bounces off the canvas walls and flashes when a button press lands inside it.
 * Positions and velocities are pairs of reals; the state objects are updated in place.
 */
module Simulation {
  import opened Wrappers
  import opened Util
  import Config

  datatype Vec2 = Vec2(x: real, y: real)

  /** The canvas box `[margin + r, w - margin - r] x [margin + r, h - margin - r]` for a disc of radius `r`. */
  predicate InInsetBox(p: Vec2, w: int, h: int, margin: int, r: int) {
    && (margin + r) as real <= p.x <= (w - margin - r) as real
    && (margin + r) as real <= p.y <= (h - margin - r) as real
  }

  /** The inset box is non-empty: the window is at least `2 * (margin + r)` wide and high. */
  predicate InsetBoxNonEmpty(w: int, h: int, margin: int, r: int) {
    margin + r <= w - margin - r && margin + r <= h - margin - r
  }

  /** Both coordinates clamped to the inset box, as the engine does for the ball and the target. */
  function ClampPoint(p: Vec2, w: int, h: int, margin: int, r: int): (q: Vec2)
    ensures InsetBoxNonEmpty(w, h, margin, r) ==> InInsetBox(q, w, h, margin, r)
    ensures InInsetBox(p, w, h, margin, r) ==> q == p
  {
    Vec2(Clamp(p.x, (margin + r) as real, (w - margin - r) as real),
         Clamp(p.y, (margin + r) as real, (h - margin - r) as real))
  }

  /** Clamping a point twice changes nothing more, when the box is non-empty. */
  lemma ClampPointIdempotent(p: Vec2, w: int, h: int, margin: int, r: int)
    requires InsetBoxNonEmpty(w, h, margin, r)
    ensures ClampPoint(ClampPoint(p, w, h, margin, r), w, h, margin, r) == ClampPoint(p, w, h, margin, r)
  {
  }

  /** In a 1 x 1 window the ball's box is empty, and a second clamp moves the point again. */
  lemma ClampPointTinyWindow()
    ensures !InsetBoxNonEmpty(1, 1, Config.CanvasMargin, Config.BallRadius)
    ensures ClampPoint(Vec2(0.0, 0.0), 1, 1, Config.CanvasMargin, Config.BallRadius) == Vec2(26.0, 26.0)
    ensures ClampPoint(Vec2(26.0, 26.0), 1, 1, Config.CanvasMargin, Config.BallRadius) == Vec2(-25.0, -25.0)
  {
  }

  /** A point moved by `stick * speed * dt`. */
  function Moved(p: Vec2, speed: real, dt: real, stickLx: real, stickLy: real): Vec2 {
    Vec2(p.x + (stickLx * speed) * dt, p.y + (stickLy * speed) * dt)
  }

  /**
   * Where the ball ends up after one step: the override position if there is one, otherwise
   * the old position moved by `stick * speed * dt`, then clamped to the ball's box.
   */
  function StepBall(p: Vec2, speed: real, dt: real, stickLx: real, stickLy: real,
                    over: Option<Vec2>, w: int, h: int, margin: int, br: int): (q: Vec2)
    ensures InsetBoxNonEmpty(w, h, margin, br) ==> InInsetBox(q, w, h, margin, br)
    ensures over.Some? ==> q == ClampPoint(over.value, w, h, margin, br)
  {
    var raw := if over.None? then Moved(p, speed, dt, stickLx, stickLy) else over.value;
    ClampPoint(raw, w, h, margin, br)
  }

  /** A mouse override makes the stick irrelevant. */
  lemma OverrideIgnoresStick(p: Vec2, speed: real, dt: real, s1: Vec2, s2: Vec2, o: Vec2,
                             w: int, h: int, margin: int, br: int)
    ensures StepBall(p, speed, dt, s1.x, s1.y, Some(o), w, h, margin, br)
         == StepBall(p, speed, dt, s2.x, s2.y, Some(o), w, h, margin, br)
  {
  }

  /** A still stick, or no time elapsing, leaves a ball already in its box where it is. */
  lemma StillBallStays(p: Vec2, speed: real, dt: real, w: int, h: int, margin: int, br: int)
    requires InInsetBox(p, w, h, margin, br)
    ensures StepBall(p, speed, dt, 0.0, 0.0, None, w, h, margin, br) == p
    ensures StepBall(p, speed, 0.0, 1.0, -1.0, None, w, h, margin, br) == p
  {
    assert Vec2(p.x + (0.0 * speed) * dt, p.y + (0.0 * speed) * dt) == p;
    assert Vec2(p.x + (1.0 * speed) * 0.0, p.y + (-1.0 * speed) * 0.0) == p;
  }

  /**
   * A timer that counts up to `cap` and stays there: it advances by `dt` only while below the
   * cap and is cut back to the cap when it overshoots.
   */
  function Saturate(e: real, dt: real, cap: real): (r: real)
    ensures e <= cap ==> r <= cap
    ensures e >= cap ==> r == e
    ensures e < cap && dt >= 0.0 ==> e <= r
    ensures e < cap && e + dt <= cap ==> r == e + dt
    ensures e < cap && e + dt > cap ==> r == cap
    ensures 0.0 <= e <= cap && dt >= 0.0 ==> 0.0 <= r <= cap
  {
    if e < cap then (if e + dt > cap then cap else e + dt) else e
  }

  /** A timer that has saturated keeps its value, whatever time passes. */
  lemma SaturateFixed(cap: real, dt: real)
    ensures Saturate(cap, dt, cap) == cap
  {
  }

  /** The glow colour after the step's button edges: the colour of the last edge, or unchanged with none. */
  function BlinkColor(c: Rgb, edges: seq<int>): (r: Rgb)
    ensures edges == [] ==> r == c
    ensures edges != [] ==> r == Config.ButtonColor(edges[|edges| - 1])
  {
    if edges == [] then c else Config.ButtonColor(edges[|edges| - 1])
  }

  /** Only the last edge matters: earlier presses in the same step are overwritten. */
  lemma LastEdgeWins(c: Rgb, earlier: seq<int>, b: int)
    ensures BlinkColor(c, earlier + [b]) == Config.ButtonColor(b)
  {
  }

  /**
   * One axis of the target's wall bounce: below `lo` it is put on `lo` moving up (`+|v|`), above
   * `hi` it is put on `hi` moving down (`-|v|`), otherwise nothing changes.
   */
  function ReflectAxis(p: real, v: real, lo: real, hi: real): (r: (real, real))
    ensures r.0 > p ==> r.1 >= 0.0
    ensures r.0 < p ==> r.1 <= 0.0
    ensures r.0 != p ==> AbsR(r.1) == AbsR(v)
  {
    if p < lo then (lo, AbsR(v))
    else if p > hi then (hi, -AbsR(v))
    else (p, v)
  }

  /**
   * The bounce never changes the speed along the axis, never leaves the target moving into
   * the wall it hit, and leaves it inside `[lo, hi]` whenever that is non-empty.
   */
  lemma ReflectAxisSpec(p: real, v: real, lo: real, hi: real)
    ensures AbsR(ReflectAxis(p, v, lo, hi).1) == AbsR(v)
    ensures p < lo ==> ReflectAxis(p, v, lo, hi) == (lo, AbsR(v)) && ReflectAxis(p, v, lo, hi).1 >= 0.0
    ensures lo <= p && p > hi ==> ReflectAxis(p, v, lo, hi) == (hi, -AbsR(v)) && ReflectAxis(p, v, lo, hi).1 <= 0.0
    ensures lo <= p <= hi ==> ReflectAxis(p, v, lo, hi) == (p, v)
    ensures lo <= hi ==> lo <= ReflectAxis(p, v, lo, hi).0 <= hi
  {
  }

  /** The hit test: the ball's centre lies within `max(0, tr - br)` of the target's centre. */
  predicate IsHit(ball: Vec2, target: Vec2, tr: int, br: int) {
    var inner := MaxR(0.0, (tr - br) as real);
    DistanceSq(ball.x, ball.y, target.x, target.y) <= inner * inner
  }

  /** A ball exactly on the target's centre always hits, whatever the radii. */
  lemma CentreHits(p: Vec2, tr: int, br: int)
    ensures IsHit(p, p, tr, br)
  {
    var inner := MaxR(0.0, (tr - br) as real);
    SquareNonNegative(inner);
  }

  /**
   * The target moved from `(p0, v0)` to `(p1, v1)` in one step: moved by `v0 * dt`, then
   * bounced off the walls of its box, one axis at a time.
   */
  predicate TargetMoved(p0: Vec2, v0: Vec2, p1: Vec2, v1: Vec2, dt: real, w: int, h: int, margin: int, tr: int) {
    && (p1.x, v1.x) == ReflectAxis(p0.x + v0.x * dt, v0.x, (margin + tr) as real, (w - margin - tr) as real)
    && (p1.y, v1.y) == ReflectAxis(p0.y + v0.y * dt, v0.y, (margin + tr) as real, (h - margin - tr) as real)
  }

  /** After such a move the target is inside its box (when there is one), at unchanged speed per axis. */
  lemma TargetMovedBounds(p0: Vec2, v0: Vec2, p1: Vec2, v1: Vec2, dt: real, w: int, h: int, margin: int, tr: int)
    requires TargetMoved(p0, v0, p1, v1, dt, w, h, margin, tr)
    ensures AbsR(v1.x) == AbsR(v0.x) && AbsR(v1.y) == AbsR(v0.y)
    ensures InsetBoxNonEmpty(w, h, margin, tr) ==> InInsetBox(p1, w, h, margin, tr)
  {
    ReflectAxisSpec(p0.x + v0.x * dt, v0.x, (margin + tr) as real, (w - margin - tr) as real);
    ReflectAxisSpec(p0.y + v0.y * dt, v0.y, (margin + tr) as real, (h - margin - tr) as real);
  }

  /** The flash timer after one step: restarted by a hit, otherwise saturating at the flash duration. */
  function FlashAfter(e: real, dt: real, anyButtonEdge: bool, ball: Vec2, target: Vec2, tr: int, br: int): (r: real)
    ensures anyButtonEdge && IsHit(ball, target, tr, br) ==> r == 0.0
    ensures !(anyButtonEdge && IsHit(ball, target, tr, br)) ==> r == Saturate(e, dt, Config.TargetFlashDurationS)
    ensures 0.0 <= e <= Config.TargetFlashDurationS && dt >= 0.0 ==> 0.0 <= r <= Config.TargetFlashDurationS
  {
    if anyButtonEdge && IsHit(ball, target, tr, br) then 0.0
    else Saturate(e, dt, Config.TargetFlashDurationS)
  }

  /** `_compute_radius`: `round(ball_radius * size_pct / 100)`, within half a pixel of the exact value. */
  function TargetRadius(ballRadius: int, sizePct: int): (r: int)
    ensures (ballRadius * sizePct) as real / 100.0 - 0.5 <= r as real <= (ballRadius * sizePct) as real / 100.0 + 0.5
  {
    Round(ballRadius as real * (sizePct as real / 100.0))
  }

  /** With the configured ball, every allowed size gives a radius between 17 and 70 pixels. */
  lemma TargetRadiusRange(sizePct: int)
    requires Config.TargetSizePctMin <= sizePct <= Config.TargetSizePctMax
    ensures 17 <= TargetRadius(Config.BallRadius, sizePct) <= 70
  {
  }

  class BallVisual {
    var activeBlinkColor: Rgb
    var glowElapsed: real

    /** The dataclass defaults: the base colour, with the glow already run out. */
    constructor ()
      ensures activeBlinkColor == Config.BallBaseColor
      ensures glowElapsed == Config.GlowDurationS
    {
      activeBlinkColor := Config.BallBaseColor;
      glowElapsed := Config.GlowDurationS;
    }

    /**
     * The glow and blink part of `engine_step`: the glow timer saturates at its duration, then
     * every button edge in turn sets the blink colour and restarts the glow.
     */
    method Advance(dt: real, edges: seq<int>)
      modifies this
      ensures glowElapsed == (if edges == [] then Saturate(old(glowElapsed), dt, Config.GlowDurationS) else 0.0)
      ensures activeBlinkColor == BlinkColor(old(activeBlinkColor), edges)
    {
      if glowElapsed < Config.GlowDurationS {
        glowElapsed := glowElapsed + dt;
        if glowElapsed > Config.GlowDurationS {
          glowElapsed := Config.GlowDurationS;
        }
      }

      ghost var glow0 := glowElapsed;
      for i := 0 to |edges|
        invariant activeBlinkColor == BlinkColor(old(activeBlinkColor), edges[..i])
        invariant glowElapsed == (if i == 0 then glow0 else 0.0)
      {
        activeBlinkColor := Config.ButtonColor(edges[i]);
        glowElapsed := 0.0;
      }
      assert edges[..|edges|] == edges;
    }
  }

  class TargetState {
    var enabled: bool
    var pos: Vec2
    var vel: Vec2
    var sizePct: int
    var speedPxS: int
    var radiusPx: int
    var hitFlashElapsed: real

    /** The dataclass defaults. */
    constructor ()
      ensures !enabled && pos == Vec2(0.0, 0.0) && vel == Vec2(1.0, 0.0)
      ensures sizePct == Config.TargetSizePctDefault && speedPxS == Config.TargetSpeedPxSDefault
      ensures radiusPx == 0 && hitFlashElapsed == Config.TargetFlashDurationS
    {
      enabled := false;
      pos := Vec2(0.0, 0.0);
      vel := Vec2(1.0, 0.0);
      sizePct := Config.TargetSizePctDefault;
      speedPxS := Config.TargetSpeedPxSDefault;
      radiusPx := 0;
      hitFlashElapsed := Config.TargetFlashDurationS;
    }

    /**
     * `set_params`: size and speed clamped to their slider ranges, the radius recomputed, and
     * the velocity rescaled to the new speed along `dir`, the unit direction of the current
     * velocity (computed by the caller).
     */
    method SetParams(ballRadius: int, size: int, speed: int, dir: Vec2)
      modifies this
      ensures sizePct == ClampInt(size, Config.TargetSizePctMin, Config.TargetSizePctMax)
      ensures speedPxS == ClampInt(speed, Config.TargetSpeedPxSMin, Config.TargetSpeedPxSMax)
      ensures Config.TargetSizePctMin <= sizePct <= Config.TargetSizePctMax
      ensures Config.TargetSpeedPxSMin <= speedPxS <= Config.TargetSpeedPxSMax
      ensures radiusPx == TargetRadius(ballRadius, sizePct)
      ensures vel == Vec2(dir.x * speedPxS as real, dir.y * speedPxS as real)
      ensures enabled == old(enabled) && pos == old(pos) && hitFlashElapsed == old(hitFlashElapsed)
    {
      sizePct := ClampInt(size, Config.TargetSizePctMin, Config.TargetSizePctMax);
      speedPxS := ClampInt(speed, Config.TargetSpeedPxSMin, Config.TargetSpeedPxSMax);
      radiusPx := TargetRadius(ballRadius, sizePct);
      vel := Vec2(dir.x * speedPxS as real, dir.y * speedPxS as real);
    }

    /**
     * `reset`: the radius recomputed, the target placed at 65 % / 45 % of the window and clamped
     * to its box, moving along `dir` (the random unit direction, drawn by the caller) at its
     * speed, with the flash run out.
     */
    method Reset(w: int, h: int, margin: int, ballRadius: int, dir: Vec2)
      modifies this
      ensures radiusPx == TargetRadius(ballRadius, sizePct)
      ensures pos == ClampPoint(Vec2(w as real * 0.65, h as real * 0.45), w, h, margin, radiusPx)
      ensures InsetBoxNonEmpty(w, h, margin, radiusPx) ==> InInsetBox(pos, w, h, margin, radiusPx)
      ensures vel == Vec2(dir.x * speedPxS as real, dir.y * speedPxS as real)
      ensures hitFlashElapsed == Config.TargetFlashDurationS
      ensures enabled == old(enabled) && sizePct == old(sizePct) && speedPxS == old(speedPxS)
    {
      radiusPx := TargetRadius(ballRadius, sizePct);
      pos := Vec2(w as real * 0.65, h as real * 0.45);
      vel := Vec2(dir.x * speedPxS as real, dir.y * speedPxS as real);
      hitFlashElapsed := Config.TargetFlashDurationS;
      var tr := radiusPx;
      pos := pos.(x := Clamp(pos.x, (margin + tr) as real, (w - margin - tr) as real));
      pos := pos.(y := Clamp(pos.y, (margin + tr) as real, (h - margin - tr) as real));
    }

    /**
     * The target part of `engine_step`, for an enabled target: it moves by `vel * dt`, bounces
     * off the walls of its box axis by axis, its flash timer saturates, and a button edge with
     * the ball (at `ball`, radius `br`) inside it restarts the flash. A disabled target is untouched.
     */
    method Step(dt: real, w: int, h: int, margin: int, ball: Vec2, br: int, anyButtonEdge: bool)
      modifies this
      ensures enabled == old(enabled) && radiusPx == old(radiusPx)
      ensures sizePct == old(sizePct) && speedPxS == old(speedPxS)
      ensures !enabled ==> pos == old(pos) && vel == old(vel) && hitFlashElapsed == old(hitFlashElapsed)
      ensures enabled ==> TargetMoved(old(pos), old(vel), pos, vel, dt, w, h, margin, radiusPx)
      ensures enabled ==> hitFlashElapsed == FlashAfter(old(hitFlashElapsed), dt, anyButtonEdge, ball, pos, radiusPx, br)
    {
      if enabled {
        var px := pos.x + vel.x * dt;
        var py := pos.y + vel.y * dt;
        var vx := vel.x;
        var vy := vel.y;

        var tr := radiusPx;
        var minTx := (margin + tr) as real;
        var maxTx := (w - margin - tr) as real;
        var minTy := (margin + tr) as real;
        var maxTy := (h - margin - tr) as real;

        if px < minTx {
          px, vx := minTx, AbsR(vx);
        } else if px > maxTx {
          px, vx := maxTx, -AbsR(vx);
        }
        assert (px, vx) == ReflectAxis(old(pos.x) + old(vel.x) * dt, old(vel.x), minTx, maxTx);

        if py < minTy {
          py, vy := minTy, AbsR(vy);
        } else if py > maxTy {
          py, vy := maxTy, -AbsR(vy);
        }
        assert (py, vy) == ReflectAxis(old(pos.y) + old(vel.y) * dt, old(vel.y), minTy, maxTy);
        pos, vel := Vec2(px, py), Vec2(vx, vy);

        var flash := hitFlashElapsed;
        if flash < Config.TargetFlashDurationS {
          flash := flash + dt;
          if flash > Config.TargetFlashDurationS {
            flash := Config.TargetFlashDurationS;
          }
        }

        if anyButtonEdge && IsHit(ball, pos, tr, br) {
          flash := 0.0;
        }
        hitFlashElapsed := flash;
      }
    }
  }

  class EngineState {
    var pos: Vec2
    var prevPos: Vec2
    var ballRadius: int
    var ballSpeed: real
    const visual: BallVisual
    const target: TargetState

    /**
     * `make_initial_state`: the ball at the window's centre, resting, with the default ball
     * settings; the target disabled, with default size and speed, already reset inside the
     * window (`dir` is the random direction `reset` draws).
     */
    constructor (w: int, h: int, margin: int, dir: Vec2)
      ensures pos == Vec2(w as real * 0.5, h as real * 0.5) && prevPos == pos
      ensures ballRadius == Config.BallRadius && ballSpeed == Config.BallSpeedPxS
      ensures visual.activeBlinkColor == Config.BallBaseColor && visual.glowElapsed == Config.GlowDurationS
      ensures !target.enabled
      ensures target.sizePct == Config.TargetSizePctDefault && target.speedPxS == Config.TargetSpeedPxSDefault
      ensures target.radiusPx == TargetRadius(Config.BallRadius, Config.TargetSizePctDefault)
      ensures target.pos == ClampPoint(Vec2(w as real * 0.65, h as real * 0.45), w, h, margin, target.radiusPx)
      ensures target.vel == Vec2(dir.x * Config.TargetSpeedPxSDefault as real, dir.y * Config.TargetSpeedPxSDefault as real)
      ensures target.hitFlashElapsed == Config.TargetFlashDurationS
      ensures fresh(visual) && fresh(target)
    {
      var r := Config.BallRadius;
      var t := new TargetState();
      t.SetParams(r, Config.TargetSizePctDefault, Config.TargetSpeedPxSDefault, Vec2(1.0, 0.0));
      t.Reset(w, h, margin, r, dir);
      var v := new BallVisual();
      pos := Vec2(w as real * 0.5, h as real * 0.5);
      prevPos := Vec2(w as real * 0.5, h as real * 0.5);
      ballRadius := r;
      ballSpeed := Config.BallSpeedPxS;
      visual := v;
      target := t;
    }

    /**
     * `set_target_enabled`: switches the target on or off; switching it on resets it inside
     * the window. Nothing else changes.
     */
    method SetTargetEnabled(enabled: bool, w: int, h: int, margin: int, dir: Vec2)
      modifies target
      ensures target.enabled == enabled
      ensures enabled ==> target.radiusPx == TargetRadius(ballRadius, target.sizePct)
      ensures enabled ==> target.pos == ClampPoint(Vec2(w as real * 0.65, h as real * 0.45), w, h, margin, target.radiusPx)
      ensures enabled ==> target.vel == Vec2(dir.x * target.speedPxS as real, dir.y * target.speedPxS as real)
      ensures enabled ==> target.hitFlashElapsed == Config.TargetFlashDurationS
      ensures !enabled ==> target.pos == old(target.pos) && target.vel == old(target.vel)
                           && target.radiusPx == old(target.radiusPx)
                           && target.hitFlashElapsed == old(target.hitFlashElapsed)
      ensures target.sizePct == old(target.sizePct) && target.speedPxS == old(target.speedPxS)
    {
      target.enabled := enabled;
      if enabled {
        target.Reset(w, h, margin, ballRadius, dir);
      }
    }

    /**
     * `clamp_state_to_bounds` (after a window resize): the ball's current and previous positions
     * are clamped to the ball's box, and the target's position to its own box when it is enabled.
     */
    method ClampStateToBounds(w: int, h: int, margin: int)
      modifies this, target
      ensures pos == ClampPoint(old(pos), w, h, margin, ballRadius)
      ensures prevPos == ClampPoint(old(prevPos), w, h, margin, ballRadius)
      ensures target.pos == (if target.enabled then ClampPoint(old(target.pos), w, h, margin, target.radiusPx) else old(target.pos))
      ensures ballRadius == old(ballRadius) && ballSpeed == old(ballSpeed)
      ensures target.enabled == old(target.enabled) && target.radiusPx == old(target.radiusPx)
      ensures target.vel == old(target.vel) && target.hitFlashElapsed == old(target.hitFlashElapsed)
      ensures target.sizePct == old(target.sizePct) && target.speedPxS == old(target.speedPxS)
    {
      var br := ballRadius;
      pos := pos.(x := Clamp(pos.x, (margin + br) as real, (w - margin - br) as real));
      pos := pos.(y := Clamp(pos.y, (margin + br) as real, (h - margin - br) as real));
      prevPos := prevPos.(x := Clamp(prevPos.x, (margin + br) as real, (w - margin - br) as real));
      prevPos := prevPos.(y := Clamp(prevPos.y, (margin + br) as real, (h - margin - br) as real));
      if target.enabled {
        var tr := target.radiusPx;
        target.pos := target.pos.(x := Clamp(target.pos.x, (margin + tr) as real, (w - margin - tr) as real));
        target.pos := target.pos.(y := Clamp(target.pos.y, (margin + tr) as real, (h - margin - tr) as real));
      }
    }

    /**
     * `engine_step`: advances the whole state by one fixed tick of `dt` seconds.
     * `edges` are the buttons pressed since the previous tick, in order; `ballOverride` is the
     * mouse position when the mouse drives the ball.
     */
    method EngineStep(dt: real, w: int, h: int, margin: int, stickLx: real, stickLy: real,
                      edges: seq<int>, anyButtonEdge: bool, ballOverride: Option<Vec2>)
      modifies this, visual, target
      ensures prevPos == old(pos)
      ensures pos == StepBall(old(pos), ballSpeed, dt, stickLx, stickLy, ballOverride, w, h, margin, ballRadius)
      ensures InsetBoxNonEmpty(w, h, margin, ballRadius) ==> InInsetBox(pos, w, h, margin, ballRadius)
      ensures ballRadius == old(ballRadius) && ballSpeed == old(ballSpeed)
      // glow and blink colour
      ensures visual.glowElapsed == (if edges == [] then Saturate(old(visual.glowElapsed), dt, Config.GlowDurationS) else 0.0)
      ensures visual.activeBlinkColor == BlinkColor(old(visual.activeBlinkColor), edges)
      ensures 0.0 <= old(visual.glowElapsed) <= Config.GlowDurationS && dt >= 0.0 ==>
                0.0 <= visual.glowElapsed <= Config.GlowDurationS
      // the target
      ensures target.enabled == old(target.enabled) && target.radiusPx == old(target.radiusPx)
      ensures target.sizePct == old(target.sizePct) && target.speedPxS == old(target.speedPxS)
      ensures !target.enabled ==> target.pos == old(target.pos) && target.vel == old(target.vel)
                                  && target.hitFlashElapsed == old(target.hitFlashElapsed)
      ensures target.enabled ==> TargetMoved(old(target.pos), old(target.vel), target.pos, target.vel, dt, w, h, margin, target.radiusPx)
      ensures target.enabled ==> AbsR(target.vel.x) == AbsR(old(target.vel.x)) && AbsR(target.vel.y) == AbsR(old(target.vel.y))
      ensures target.enabled && InsetBoxNonEmpty(w, h, margin, target.radiusPx) ==>
                InInsetBox(target.pos, w, h, margin, target.radiusPx)
      ensures target.enabled ==>
                target.hitFlashElapsed == FlashAfter(old(target.hitFlashElapsed), dt, anyButtonEdge, pos, target.pos,
                                                     target.radiusPx, ballRadius)
    {
      ghost var targetPos, targetVel := target.pos, target.vel;
      MoveBall(dt, w, h, margin, stickLx, stickLy, ballOverride);
      visual.Advance(dt, edges);
      assert target.pos == targetPos && target.vel == targetVel;
      target.Step(dt, w, h, margin, pos, ballRadius, anyButtonEdge);
    }

    /** The ball part of `engine_step`: remember the old position, move, clamp. */
    method MoveBall(dt: real, w: int, h: int, margin: int, stickLx: real, stickLy: real, ballOverride: Option<Vec2>)
      modifies this
      ensures prevPos == old(pos)
      ensures pos == StepBall(old(pos), ballSpeed, dt, stickLx, stickLy, ballOverride, w, h, margin, ballRadius)
      ensures ballRadius == old(ballRadius) && ballSpeed == old(ballSpeed)
    {
      prevPos := pos;

      if ballOverride.None? {
        pos := Moved(pos, ballSpeed, dt, stickLx, stickLy);
      } else {
        pos := ballOverride.value;
      }

      var br := ballRadius;
      pos := pos.(x := Clamp(pos.x, (margin + br) as real, (w - margin - br) as real));
      pos := pos.(y := Clamp(pos.y, (margin + br) as real, (h - margin - br) as real));
    }
  }
}
