/**
 * The numeric helpers every other part of the program uses: clamping,
 * interpolation, colour blending, the easing curve, deadzone shaping,
 * squared distance and the soft snap of slider values.
 * Python floats are modelled as `real`.
 */
module Util {

  /** An RGB colour with integer channels. */
  datatype Rgb = Rgb(r: int, g: int, b: int)

  function Abs(x: int): nat {
    if x < 0 then -x else x
  }

  function AbsR(x: real): real {
    if x < 0.0 then -x else x
  }

  function MinR(a: real, b: real): real {
    if a <= b then a else b
  }

  function MaxR(a: real, b: real): real {
    if a >= b then a else b
  }

  /**
   * `clamp(x, lo, hi)`: inside `[lo, hi]` whenever that interval is non-empty and the identity
   * on it; on an empty interval (`lo > hi`, a window too small for the margins) the result is
   * `lo` below `lo` and `hi` otherwise.
   */
  function Clamp(x: real, lo: real, hi: real): (r: real)
    ensures lo <= hi ==> lo <= r <= hi
    ensures lo <= x <= hi ==> r == x
    ensures lo > hi ==> (x < lo ==> r == lo) && (x >= lo ==> r == hi)
  {
    if x < lo then lo else if x > hi then hi else x
  }

  /** Clamping twice is clamping once, as long as the interval is non-empty. */
  lemma ClampIdempotent(x: real, lo: real, hi: real)
    requires lo <= hi
    ensures Clamp(Clamp(x, lo, hi), lo, hi) == Clamp(x, lo, hi)
  {
  }

  /** On an empty interval a value below `lo` is sent to `lo` and then, by a second clamp, to `hi`. */
  lemma DegenerateClampMoves(x: real, lo: real, hi: real)
    requires hi < lo && x < lo
    ensures Clamp(x, lo, hi) == lo
    ensures Clamp(Clamp(x, lo, hi), lo, hi) == hi != Clamp(x, lo, hi)
  {
  }

  /** `int(clamp(float(x), float(lo), float(hi)))` on integers: the integer clamp agrees with the real one. */
  function ClampInt(x: int, lo: int, hi: int): (r: int)
    ensures r as real == Clamp(x as real, lo as real, hi as real)
    ensures lo <= hi ==> lo <= r <= hi
  {
    if x < lo then lo else if x > hi then hi else x
  }

  /** `lerp(a, b, t)`: `a` at 0, `b` at 1, and between the two for `t` in `[0, 1]`. */
  function Lerp(a: real, b: real, t: real): (r: real)
    ensures t == 0.0 ==> r == a
    ensures t == 1.0 ==> r == b
    ensures 0.0 <= t <= 1.0 ==> MinR(a, b) <= r <= MaxR(a, b)
  {
    var d := b - a;
    ScaleBetween(d, t);
    a + d * t
  }

  lemma ScaleBetween(d: real, t: real)
    ensures t == 0.0 ==> d * t == 0.0
    ensures t == 1.0 ==> d * t == d
    ensures 0.0 <= t <= 1.0 && d >= 0.0 ==> 0.0 <= d * t <= d
    ensures 0.0 <= t <= 1.0 && d <= 0.0 ==> d <= d * t <= 0.0
  {
    if 0.0 <= t <= 1.0 {
      if d >= 0.0 {
        MulMonotone(0.0, t, d);
        MulMonotone(t, 1.0, d);
      } else {
        MulMonotone(0.0, t, -d);
        MulMonotone(t, 1.0, -d);
      }
    }
  }

  /**
   * Python's `round()` to an integer: the nearest integer, ties to the even one.
   * It moves `x` by at most one half and keeps integers.
   */
  function Round(x: real): (n: int)
    ensures x - 0.5 <= n as real <= x + 0.5
    ensures x == x.Floor as real ==> n == x.Floor
  {
    var f := x.Floor;
    var d := x - f as real;
    if d < 0.5 then f
    else if d > 0.5 then f + 1
    else if f % 2 == 0 then f
    else f + 1
  }

  /** Rounding a value that lies between two integers stays between them. */
  lemma {:induction false} RoundBetween(x: real, lo: int, hi: int)
    requires lo as real <= x <= hi as real
    ensures lo <= Round(x) <= hi
  {
    var n := Round(x);
    assert n as real <= hi as real + 0.5;
    assert lo as real - 0.5 <= n as real;
  }

  function RoundChannel(a: int, b: int, u: real): (c: int)
    requires 0.0 <= u <= 1.0
    ensures u == 0.0 ==> c == a
    ensures u == 1.0 ==> c == b
    ensures (if a <= b then a else b) <= c <= (if a <= b then b else a)
  {
    var x := Lerp(a as real, b as real, u);
    RoundBetween(x, if a <= b then a else b, if a <= b then b else a);
    Round(x)
  }

  /**
   * `lerp_color(c0, c1, t)`: `t` is clamped to `[0, 1]`, so the result is `c0` for `t <= 0`,
   * `c1` for `t >= 1`, and each channel lies between the two colours' channels.
   */
  function LerpColor(c0: Rgb, c1: Rgb, t: real): (c: Rgb)
    ensures t <= 0.0 ==> c == c0
    ensures t >= 1.0 ==> c == c1
    ensures (if c0.r <= c1.r then c0.r else c1.r) <= c.r <= (if c0.r <= c1.r then c1.r else c0.r)
    ensures (if c0.g <= c1.g then c0.g else c1.g) <= c.g <= (if c0.g <= c1.g then c1.g else c0.g)
    ensures (if c0.b <= c1.b then c0.b else c1.b) <= c.b <= (if c0.b <= c1.b then c1.b else c0.b)
  {
    var u := Clamp(t, 0.0, 1.0);
    Rgb(RoundChannel(c0.r, c1.r, u), RoundChannel(c0.g, c1.g, u), RoundChannel(c0.b, c1.b, u))
  }

  lemma CubeBounds(u: real)
    requires 0.0 <= u <= 1.0
    ensures 0.0 <= u * u <= u
    ensures 0.0 <= u * u * u <= 1.0
  {
    assert u * u <= u * 1.0;
    assert u * u * u <= u * u * 1.0;
  }

  /** `ease_out_cubic(t)`: clamps `t`, is 0 at (and below) 0, 1 at (and above) 1, and stays in `[0, 1]`. */
  function EaseOutCubic(t: real): (e: real)
    ensures 0.0 <= e <= 1.0
    ensures t <= 0.0 ==> e == 0.0
    ensures t >= 1.0 ==> e == 1.0
  {
    var c := Clamp(t, 0.0, 1.0);
    var u := 1.0 - c;
    CubeBounds(u);
    1.0 - u * u * u
  }

  lemma MulMonotone(a: real, b: real, c: real)
    requires a <= b && 0.0 <= c
    ensures a * c <= b * c
  {
  }

  /** The easing curve never decreases, so a fading effect only fades. */
  lemma {:induction false} EaseOutCubicMonotone(t1: real, t2: real)
    requires t1 <= t2
    ensures EaseOutCubic(t1) <= EaseOutCubic(t2)
  {
    var c1 := Clamp(t1, 0.0, 1.0);
    var c2 := Clamp(t2, 0.0, 1.0);
    assert c1 <= c2;
    CubeMonotone(1.0 - c2, 1.0 - c1);
  }

  lemma CubeMonotone(a: real, b: real)
    requires 0.0 <= a <= b
    ensures a * a * a <= b * b * b
  {
    MulMonotone(a, b, a);
    MulMonotone(a, b, b);
    assert a * a <= b * b;
    MulMonotone(a * a, b * b, a);
    MulMonotone(a, b, b * b);
    assert a * a * a <= b * b * a;
    assert b * b * a == a * (b * b);
    assert b * b * b == b * (b * b);
  }

  /**
   * `apply_deadzone(v, deadzone)`: exactly 0 inside the deadzone (and for any deadzone of 1
   * or more), otherwise the magnitude past the deadzone rescaled to `[0, 1]` with the sign of `v`.
   */
  function ApplyDeadzone(v: real, deadzone: real): (r: real)
    ensures AbsR(v) <= deadzone ==> r == 0.0
    ensures deadzone >= 1.0 ==> r == 0.0
    ensures -1.0 <= r <= 1.0
    ensures r > 0.0 ==> v > 0.0
    ensures deadzone >= 0.0 && r < 0.0 ==> v < 0.0
    ensures 0.0 <= deadzone < 1.0 && AbsR(v) >= 1.0 ==> AbsR(r) == 1.0
  {
    if AbsR(v) <= deadzone then 0.0
    else
      var s := if v > 0.0 then 1.0 else -1.0;
      var m := if deadzone < 1.0 then (AbsR(v) - deadzone) / (1.0 - deadzone) else 0.0;
      DeadzoneSaturates(v, deadzone);
      s * Clamp(m, 0.0, 1.0)
  }

  lemma MulPositive(a: real, b: real)
    requires 0.0 < a && 0.0 < b
    ensures 0.0 < a * b
  {
  }

  lemma QuotientAtLeastOne(a: real, b: real)
    requires 0.0 < b <= a
    ensures a / b >= 1.0
  {
    var q := a / b;
    assert q * b == a;
    assert (q - 1.0) * b == a - b;
    if q < 1.0 {
      MulPositive(1.0 - q, b);
    }
  }

  lemma DeadzoneSaturates(v: real, deadzone: real)
    ensures deadzone < 1.0 && AbsR(v) >= 1.0 ==> (AbsR(v) - deadzone) / (1.0 - deadzone) >= 1.0
  {
    if deadzone < 1.0 && AbsR(v) >= 1.0 {
      QuotientAtLeastOne(AbsR(v) - deadzone, 1.0 - deadzone);
    }
  }

  lemma SquareNonNegative(x: real)
    ensures x * x >= 0.0
  {
    if x < 0.0 {
      MulPositive(-x, -x);
      assert x * x == (-x) * (-x);
    } else if x > 0.0 {
      MulPositive(x, x);
    }
  }

  /**
   * `distance_sq`: never negative, zero for equal points, and at least the square of the
   * offset along either axis.
   */
  function DistanceSq(x0: real, y0: real, x1: real, y1: real): (d: real)
    ensures d >= 0.0
    ensures x0 == x1 && y0 == y1 ==> d == 0.0
    ensures d >= (x1 - x0) * (x1 - x0) && d >= (y1 - y0) * (y1 - y0)
  {
    var dx := x1 - x0;
    var dy := y1 - y0;
    SquareNonNegative(dx);
    SquareNonNegative(dy);
    dx * dx + dy * dy
  }

  lemma DistanceSqSymmetric(x0: real, y0: real, x1: real, y1: real)
    ensures DistanceSq(x0, y0, x1, y1) == DistanceSq(x1, y1, x0, y0)
  {
  }

  predicate InWindow(value: int, s: int, window: int) {
    Abs(value - s) <= window
  }

  /** The loop state `(best, best_d)` of `nearest_snap` after it has visited `snaps`. */
  function SnapScan(value: int, snaps: seq<int>, window: int): (int, int)
  {
    if snaps == [] then (value, window + 1)
    else
      var prev := SnapScan(value, snaps[..|snaps| - 1], window);
      var s := snaps[|snaps| - 1];
      var d := Abs(value - s);
      if d <= window && d < prev.1 then (s, d) else prev
  }

  /** What `nearest_snap(value, snaps, window)` returns. */
  function Snapped(value: int, snaps: seq<int>, window: int): int {
    SnapScan(value, snaps, window).0
  }

  /** `snaps[k]` is within the window, no snap within the window is nearer, and none before it is as near. */
  predicate IsNearestSnapIndex(value: int, snaps: seq<int>, window: int, k: int) {
    && 0 <= k < |snaps|
    && InWindow(value, snaps[k], window)
    && (forall i :: 0 <= i < |snaps| && InWindow(value, snaps[i], window) ==> Abs(value - snaps[k]) <= Abs(value - snaps[i]))
    && (forall i :: 0 <= i < k && InWindow(value, snaps[i], window) ==> Abs(value - snaps[k]) < Abs(value - snaps[i]))
  }

  /** `nearest_snap` leaves `value` alone when no snap is within `window`. */
  lemma {:induction false} SnappedNoneInWindow(value: int, snaps: seq<int>, window: int)
    requires forall i :: 0 <= i < |snaps| ==> !InWindow(value, snaps[i], window)
    ensures SnapScan(value, snaps, window) == (value, window + 1)
  {
    if snaps != [] {
      var p := snaps[..|snaps| - 1];
      forall i | 0 <= i < |p|
        ensures !InWindow(value, p[i], window)
      {
        assert p[i] == snaps[i];
      }
      SnappedNoneInWindow(value, p, window);
    }
  }

  /**
   * When some snap is within `window`, `nearest_snap` returns the snap nearest to `value`, the
   * earliest one on ties.
   */
  lemma SnappedIsNearest(value: int, snaps: seq<int>, window: int)
    requires exists i :: 0 <= i < |snaps| && InWindow(value, snaps[i], window)
    ensures exists k :: IsNearestSnapIndex(value, snaps, window, k)
                        && SnapScan(value, snaps, window) == (snaps[k], Abs(value - snaps[k]))
  {
    var k := NearestSnapWitness(value, snaps, window);
  }

  /** The index `SnappedIsNearest` promises, found by induction on the snaps visited. */
  lemma {:induction false} NearestSnapWitness(value: int, snaps: seq<int>, window: int) returns (k: int)
    requires exists i :: 0 <= i < |snaps| && InWindow(value, snaps[i], window)
    ensures IsNearestSnapIndex(value, snaps, window, k)
    ensures SnapScan(value, snaps, window) == (snaps[k], Abs(value - snaps[k]))
  {
    var n := |snaps|;
    var p := snaps[..n - 1];
    if exists i :: 0 <= i < |p| && InWindow(value, p[i], window) {
      var k0 := NearestSnapWitness(value, p, window);
      assert p[k0] == snaps[k0];
      k := SnapStepFromSome(value, snaps, window, k0);
    } else {
      SnappedNoneInWindow(value, p, window);
      forall i | 0 <= i < n - 1
        ensures !InWindow(value, snaps[i], window)
      {
        assert p[i] == snaps[i];
      }
      SnapStepFromNone(value, snaps, window);
      k := n - 1;
    }
  }

  /** One step of the scan when no earlier snap was within the window. */
  lemma SnapStepFromNone(value: int, snaps: seq<int>, window: int)
    requires snaps != []
    requires forall i :: 0 <= i < |snaps| - 1 ==> !InWindow(value, snaps[i], window)
    requires SnapScan(value, snaps[..|snaps| - 1], window) == (value, window + 1)
    ensures InWindow(value, snaps[|snaps| - 1], window) ==>
              IsNearestSnapIndex(value, snaps, window, |snaps| - 1)
              && SnapScan(value, snaps, window) == (snaps[|snaps| - 1], Abs(value - snaps[|snaps| - 1]))
    ensures !InWindow(value, snaps[|snaps| - 1], window) ==>
              (forall i :: 0 <= i < |snaps| ==> !InWindow(value, snaps[i], window))
              && SnapScan(value, snaps, window) == (value, window + 1)
  {
  }

  /** One step of the scan when an earlier snap `k` was the nearest so far. */
  lemma SnapStepFromSome(value: int, snaps: seq<int>, window: int, k: int) returns (j: int)
    requires snaps != []
    requires IsNearestSnapIndex(value, snaps[..|snaps| - 1], window, k)
    requires SnapScan(value, snaps[..|snaps| - 1], window) == (snaps[k], Abs(value - snaps[k]))
    ensures IsNearestSnapIndex(value, snaps, window, j)
    ensures SnapScan(value, snaps, window) == (snaps[j], Abs(value - snaps[j]))
  {
    var n := |snaps|;
    var p := snaps[..n - 1];
    var d := Abs(value - snaps[n - 1]);
    var dk := Abs(value - snaps[k]);
    assert p[k] == snaps[k];
    if d <= window && d < dk {
      forall i | 0 <= i < n - 1 && InWindow(value, snaps[i], window)
        ensures d < Abs(value - snaps[i])
      {
        assert p[i] == snaps[i];
      }
      j := n - 1;
    } else {
      forall i | 0 <= i < n && InWindow(value, snaps[i], window)
        ensures dk <= Abs(value - snaps[i])
      {
        if i < n - 1 {
          assert p[i] == snaps[i];
        }
      }
      forall i | 0 <= i < k && InWindow(value, snaps[i], window)
        ensures dk < Abs(value - snaps[i])
      {
        assert p[i] == snaps[i];
      }
      j := k;
    }
  }

  /** `nearest_snap`: the loop over the snap points, proved to compute `Snapped`. */
  method NearestSnap(value: int, snaps: seq<int>, window: int) returns (best: int)
    ensures best == Snapped(value, snaps, window)
  {
    best := value;
    var bestD := window + 1;
    for i := 0 to |snaps|
      invariant (best, bestD) == SnapScan(value, snaps[..i], window)
    {
      assert snaps[..i + 1][..i] == snaps[..i];
      var d := Abs(value - snaps[i]);
      if d <= window && d < bestD {
        best := snaps[i];
        bestD := d;
      }
    }
    assert snaps[..|snaps|] == snaps;
  }
}
