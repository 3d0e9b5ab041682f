/**
 * The non-drawing logic of `render.py`: the frames-per-second meter shown in the HUD, and
 * the fade curves that turn the glow and flash timers into strengths and colours.
 * The clock is a parameter.
 */
module Render {
  import opened Util
  import Config

  /** The rate reported for `count` ticks over a window of `elapsed >= 1` seconds. */
  function WindowRate(count: nat, elapsed: real): (r: real)
    requires elapsed >= 1.0
    ensures 0.0 <= r <= count as real
    ensures count > 0 ==> r > 0.0
  {
    RateBounds(count, elapsed);
    count as real / elapsed
  }

  lemma RateBounds(count: nat, elapsed: real)
    requires elapsed >= 1.0
    ensures 0.0 <= count as real / elapsed <= count as real
    ensures count > 0 ==> count as real / elapsed > 0.0
  {
    var q := count as real / elapsed;
    assert q * elapsed == count as real;
    if q < 0.0 {
      MulPositive(-q, elapsed);
      assert false;
    }
    if q > count as real {
      MulMonotone(1.0, elapsed, q);
      assert false;
    }
  }

  /**
   * One tick at clock reading `now` took a meter from `(start0, count0, value0)` to
   * `(start, count, value)`: within a second of the window's start the tick is only counted;
   * otherwise the rate over the window, this tick included, is published and a new window opens.
   */
  predicate Ticked(start0: real, count0: nat, value0: real, now: real, start: real, count: nat, value: real) {
    && (now - start0 < 1.0 ==> count == count0 + 1 && start == start0 && value == value0)
    && (now - start0 >= 1.0 ==> value == WindowRate(count0 + 1, now - start0) && count == 0 && start == now)
  }

  /** `RateMeter`: counts ticks and, once a window of at least a second has passed, publishes the rate. */
  class RateMeter {
    var windowStart: real
    var count: nat
    var value: real

    /** A fresh meter reads 0 and opens its window at `now`. */
    constructor (now: real)
      ensures windowStart == now && count == 0 && value == 0.0
    {
      windowStart := now;
      count := 0;
      value := 0.0;
    }

    /**
     * `tick`, with `now` the clock reading: one more tick counted; when the window has lasted a
     * second or more the rate over it is published and a new window opens at `now`.
     * The published value never goes negative, whatever the clock does.
     */
    method Tick(now: real)
      modifies this
      ensures Ticked(old(windowStart), old(count), old(value), now, windowStart, count, value)
      ensures old(value) >= 0.0 ==> value >= 0.0
    {
      count := count + 1;
      var dt := now - windowStart;
      if dt >= 1.0 {
        value := WindowRate(count, dt);
        count := 0;
        windowStart := now;
      }
    }
  }

  /** The normalised time of a fade: `elapsed / duration` clamped to `[0, 1]`, or 1 when the duration is not positive. */
  function FadeTime(elapsed: real, duration: real): (t: real)
    ensures 0.0 <= t <= 1.0
    ensures duration <= 0.0 ==> t == 1.0
    ensures duration > 0.0 && elapsed <= 0.0 ==> t == 0.0
    ensures duration > 0.0 && elapsed >= duration ==> t == 1.0
  {
    var t := if duration > 0.0 then elapsed / duration else 1.0;
    FadeQuotient(elapsed, duration);
    Clamp(t, 0.0, 1.0)
  }

  lemma FadeQuotient(elapsed: real, duration: real)
    ensures duration > 0.0 && elapsed >= duration ==> elapsed / duration >= 1.0
    ensures duration > 0.0 && elapsed <= 0.0 ==> elapsed / duration <= 0.0
  {
    if duration > 0.0 && elapsed >= duration {
      QuotientAtLeastOne(elapsed, duration);
    }
    if duration > 0.0 && elapsed <= 0.0 {
      var q := elapsed / duration;
      assert q * duration == elapsed;
      if q > 0.0 {
        MulPositive(q, duration);
      }
    }
  }

  /** A longer elapsed time never gives an earlier point of the fade. */
  lemma {:induction false} FadeTimeMonotone(e1: real, e2: real, duration: real)
    requires e1 <= e2
    ensures FadeTime(e1, duration) <= FadeTime(e2, duration)
  {
    if duration > 0.0 {
      var q1 := e1 / duration;
      var q2 := e2 / duration;
      assert q1 * duration == e1;
      assert q2 * duration == e2;
      if q1 > q2 {
        MulPositive(q1 - q2, duration);
        assert false;
      }
    }
  }

  /**
   * The strength of the glow (or flash) `elapsed` seconds into a fade of `duration`: `1 - ease(t)`,
   * full at the start, gone at the end, always in `[0, 1]`.
   */
  function FadeStrength(elapsed: real, duration: real): (s: real)
    ensures 0.0 <= s <= 1.0
    ensures duration > 0.0 && elapsed <= 0.0 ==> s == 1.0
    ensures duration > 0.0 && elapsed >= duration ==> s == 0.0
    ensures duration <= 0.0 ==> s == 0.0
  {
    1.0 - EaseOutCubic(FadeTime(elapsed, duration))
  }

  /** A fade only fades: more elapsed time never gives a stronger glow. */
  lemma {:induction false} FadeStrengthMonotone(e1: real, e2: real, duration: real)
    requires e1 <= e2
    ensures FadeStrength(e2, duration) <= FadeStrength(e1, duration)
  {
    FadeTimeMonotone(e1, e2, duration);
    EaseOutCubicMonotone(FadeTime(e1, duration), FadeTime(e2, duration));
  }

  /** The ball's colour in `draw_glowing_ball`: the blink colour blended back to the base colour as the glow fades. */
  function BallColor(blink: Rgb, base: Rgb, glowElapsed: real): (c: Rgb)
    ensures glowElapsed <= 0.0 ==> c == blink
    ensures glowElapsed >= Config.GlowDurationS ==> c == base
  {
    LerpColor(blink, base, EaseOutCubic(FadeTime(glowElapsed, Config.GlowDurationS)))
  }

  /** The glow strength of `draw_glowing_ball`. */
  function GlowStrength(glowElapsed: real): (s: real)
    ensures 0.0 <= s <= 1.0
    ensures glowElapsed <= 0.0 ==> s == 1.0
    ensures glowElapsed >= Config.GlowDurationS ==> s == 0.0
  {
    FadeStrength(glowElapsed, Config.GlowDurationS)
  }

  /** `draw_target` draws the flash decoration only while the flash strength exceeds 0.001. */
  predicate FlashDrawn(flashElapsed: real) {
    FadeStrength(flashElapsed, Config.TargetFlashDurationS) > 0.001
  }

  /** A fresh hit is drawn; a run-out flash is not, and once gone it stays gone. */
  lemma FlashDrawnWindow(e1: real, e2: real)
    ensures FlashDrawn(0.0)
    ensures !FlashDrawn(Config.TargetFlashDurationS)
    ensures e1 <= e2 && !FlashDrawn(e1) ==> !FlashDrawn(e2)
  {
    if e1 <= e2 {
      FadeStrengthMonotone(e1, e2, Config.TargetFlashDurationS);
    }
  }
}
