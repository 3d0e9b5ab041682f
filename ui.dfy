/**
 * The widgets of the settings panel (`ui.py`): the ellipsis search behind every
 * clipped label, the checkbox row, the drop-down row with its scrollable list,
 * and the slider row with its numeric text box. A font appears only as a
 * `width` function from text to pixels; drawing is not modelled.
 */
module Ui {
  import opened Wrappers
  import opened Text
  import opened Util
  import Config

  /** A pygame `Rect`: the left and top edges belong to it, the right and bottom edges do not. */
  datatype Rect = Rect(x: int, y: int, w: int, h: int) {
    function Right(): int { x + w }
    function Bottom(): int { y + h }

    /** `collidepoint`. */
    predicate Contains(px: int, py: int) {
      x <= px < x + w && y <= py < y + h
    }
  }

  /** `Rect.inflate(dx, dy)`: grown by `dx` and `dy` around the same centre. */
  function Inflate(r: Rect, dx: int, dy: int): (g: Rect)
    requires dx >= 0 && dy >= 0
    ensures g.x <= r.x && r.Right() <= g.Right()
    ensures g.y <= r.y && r.Bottom() <= g.Bottom()
    ensures forall px, py :: r.Contains(px, py) ==> g.Contains(px, py)
  {
    Rect(r.x - dx / 2, r.y - dy / 2, r.w + dx, r.h + dy)
  }

  /** `_s(x, min_v)`: a pixel size times the interface scale, rounded half to even, never below `min_v`. */
  function Scaled(x: real, minV: int): (n: int)
    ensures n >= minV
    ensures Round(x * Config.UiScale) >= minV ==> n == Round(x * Config.UiScale)
  {
    var v := Round(x * Config.UiScale);
    if minV >= v then minV else v
  }

  /** Python's `int(x)` on a float: the integer between 0 and `x` nearest to `x`. */
  function Trunc(x: real): (n: int)
    ensures x >= 0.0 ==> 0 <= n && 0.0 <= x - n as real < 1.0
    ensures x < 0.0 ==> n <= 0 && -1.0 < x - n as real <= 0.0
  {
    if x >= 0.0 then x.Floor else -((-x).Floor)
  }

  // ---------------------------------------------------------------------------
  // _ellipsize_info

  const Ellipsis: string := "..."

  /** The text `s[:mid].rstrip() + "..."` the search tries for a cut at `mid`. */
  function Candidate(s: string, mid: nat): string
    requires mid <= |s|
  {
    RStrip(s[..mid]) + Ellipsis
  }

  /** A width that never shrinks when the candidate keeps a longer prefix, as a font's does. */
  predicate CandidatesMonotone(width: string -> int, s: string) {
    forall i, j :: 0 <= i <= j <= |s| ==> width(Candidate(s, i)) <= width(Candidate(s, j))
  }

  /**
   * The longest cut `k <= top` whose candidate fits `maxW` (0 when none does): a linear
   * reference for what the binary search finds.
   */
  function LongestFit(width: string -> int, s: string, maxW: int, top: nat): (k: nat)
    requires top <= |s|
    ensures k <= top
    ensures k > 0 ==> width(Candidate(s, k)) <= maxW
    ensures forall j :: k < j <= top ==> width(Candidate(s, j)) > maxW
  {
    if top == 0 then 0
    else if width(Candidate(s, top)) <= maxW then top
    else LongestFit(width, s, maxW, top - 1)
  }

  /**
   * `_ellipsize_info(font, s, max_w)`: the text to draw and whether it was cut. A cut text
   * always ends in "...", fits, and keeps a right-stripped prefix of `s`; under a monotone
   * width that prefix is the longest one that fits.
   */
  method EllipsizeInfo(width: string -> int, s: string, maxW: int) returns (fit: string, truncated: bool)
    ensures maxW <= 0 ==> fit == "" && (truncated <==> s != "")
    ensures maxW > 0 && width(s) <= maxW ==> fit == s && !truncated
    ensures maxW > 0 && width(s) > maxW && width(Ellipsis) > maxW ==> fit == "" && truncated
    ensures maxW > 0 && width(s) > maxW && width(Ellipsis) <= maxW ==>
      && truncated
      && width(fit) <= maxW
      && |fit| >= 3 && fit[|fit| - 3..] == Ellipsis
      && fit[..|fit| - 3] <= s && RStrip(fit[..|fit| - 3]) == fit[..|fit| - 3]
    ensures maxW > 0 && width(s) > maxW && width(Ellipsis) <= maxW && CandidatesMonotone(width, s) ==>
      fit == Candidate(s, LongestFit(width, s, maxW, |s|))
  {
    if maxW <= 0 {
      return "", s != "";
    }
    if width(s) <= maxW {
      return s, false;
    }
    if width(Ellipsis) > maxW {
      return "", true;
    }
    ghost var k;
    fit, k := SearchCut(width, s, maxW);
    CandidateShape(s, k);
    truncated := true;
  }

  /** A candidate ends in "..." after a right-stripped prefix of `s`. */
  lemma CandidateShape(s: string, k: nat)
    requires k <= |s|
    ensures var c := Candidate(s, k);
      && |c| >= 3 && c[|c| - 3..] == Ellipsis
      && c[..|c| - 3] <= s && RStrip(c[..|c| - 3]) == c[..|c| - 3]
  {
    var c := Candidate(s, k);
    assert c[..|c| - 3] == RStrip(s[..k]);
  }

  /**
   * The binary search of `_ellipsize_info` over the cut `mid` in `[0, len(s)]`, starting from
   * a bare "..." that fits: it ends on a fitting candidate, the longest one under a monotone width.
   */
  method SearchCut(width: string -> int, s: string, maxW: int) returns (fit: string, ghost k: nat)
    requires width(Ellipsis) <= maxW
    ensures k <= |s| && fit == Candidate(s, k) && width(fit) <= maxW
    ensures CandidatesMonotone(width, s) ==> k == LongestFit(width, s, maxW, |s|)
  {
    var lo, hi := 0, |s|;
    fit, k := Ellipsis, 0;
    assert Candidate(s, 0) == Ellipsis;
    while lo <= hi
      invariant 0 <= lo <= hi + 1 <= |s| + 1
      invariant k <= |s| && fit == Candidate(s, k) && width(fit) <= maxW
      invariant k == (if lo == 0 then 0 else lo - 1)
      invariant CandidatesMonotone(width, s) ==> forall j :: hi < j <= |s| ==> width(Candidate(s, j)) > maxW
      decreases hi - lo + 1
    {
      var mid := (lo + hi) / 2;
      var cand := RStrip(s[..mid]) + Ellipsis;
      assert cand == Candidate(s, mid);
      if width(cand) <= maxW {
        fit, k := cand, mid;
        lo := mid + 1;
      } else {
        if CandidatesMonotone(width, s) {
          forall j | hi < j <= |s| || mid <= j <= hi
            ensures width(Candidate(s, j)) > maxW
          {
            if j <= hi {
              assert width(Candidate(s, mid)) <= width(Candidate(s, j));
            }
          }
        }
        hi := mid - 1;
      }
    }
  }

  // ---------------------------------------------------------------------------
  // Events

  datatype Key = EscapeKey | ReturnKey | BackspaceKey | UpKey | DownKey | PageUpKey | PageDownKey | HomeKey | EndKey | OtherKey

  /**
   * The pygame events the widgets look at. `MouseWheel.dy` is `precise_y` when the event
   * has it and `y` otherwise; `KeyDown.text` is the event's `unicode`.
   */
  datatype Event =
    | MouseDown(button: int, px: int, py: int)
    | MouseUp(button: int)
    | MouseMotion(px: int, py: int)
    | MouseWheel(dy: real)
    | KeyDown(key: Key, text: string)
    | OtherEvent

  predicate IsLeftDown(ev: Event) {
    ev.MouseDown? && ev.button == 1
  }

  predicate IsLeftUp(ev: Event) {
    ev.MouseUp? && ev.button == 1
  }

  predicate IsKey(ev: Event, key: Key) {
    ev.KeyDown? && ev.key == key
  }

  // ---------------------------------------------------------------------------
  // CheckboxRow

  class CheckboxRow {
    const rect: Rect
    /** Whether an `on_change` callback was given. */
    const hasCallback: bool
    var checked: bool

    constructor(rect: Rect, checked: bool, hasCallback: bool)
      ensures this.rect == rect && this.checked == checked && this.hasCallback == hasCallback
    {
      this.rect := rect;
      this.checked := checked;
      this.hasCallback := hasCallback;
    }

    /**
     * `handle_event`: a left click inside the row, and nothing else, flips the box; the new
     * value goes to `on_change` when one is set.
     */
    method HandleEvent(ev: Event) returns (consumed: bool, notify: Option<bool>)
      modifies this
      ensures consumed <==> IsLeftDown(ev) && rect.Contains(ev.px, ev.py)
      ensures checked == (old(checked) != consumed)
      ensures notify == (if consumed && hasCallback then Some(checked) else None)
    {
      consumed, notify := false, None;
      if ev.MouseDown? && ev.button == 1 && rect.Contains(ev.px, ev.py) {
        checked := !checked;
        if hasCallback {
          notify := Some(checked);
        }
        consumed := true;
      }
    }
  }

  // ---------------------------------------------------------------------------
  // DropdownRow

  /** `max_visible`: the list never shows more rows than this. */
  const MaxVisible: nat := 10

  /** `item_h`: the height of one list row. */
  const ItemH: int := Scaled(24.0, 16)

  /** `max(0, total - max_visible)`: how far the list can scroll. */
  function MaxScroll(total: int): nat {
    if total > MaxVisible then total - MaxVisible else 0
  }

  predicate ScrollInRange(scroll: int, total: int) {
    0 <= scroll <= MaxScroll(total)
  }

  /**
   * `_clamp_scroll(total)`: 0 when the whole list fits; otherwise the scroll pulled into
   * `[0, total - max_visible]`, unchanged when already there.
   */
  function ClampedScroll(scroll: int, total: int): (r: int)
    ensures ScrollInRange(r, total)
    ensures total <= MaxVisible ==> r == 0
    ensures ScrollInRange(scroll, total) ==> r == scroll
    ensures scroll < 0 ==> r == 0
    ensures scroll > MaxScroll(total) ==> r == MaxScroll(total)
  {
    if total <= MaxVisible then 0
    else if scroll < 0 then 0
    else if scroll > total - MaxVisible then total - MaxVisible
    else scroll
  }

  /** `_scroll_by(dy)`: moves by exactly `dy` when that stays in range, and never the wrong way. */
  function ScrolledBy(scroll: int, dy: int, total: int): (r: int)
    ensures ScrollInRange(r, total)
    ensures ScrollInRange(scroll + dy, total) ==> r == scroll + dy
    ensures ScrollInRange(scroll, total) && dy >= 0 ==> r >= scroll
    ensures ScrollInRange(scroll, total) && dy <= 0 ==> r <= scroll
  {
    if total <= MaxVisible then 0 else ClampedScroll(scroll + dy, total)
  }

  /**
   * The whole rows the wheel path takes out of its accumulator: `int(accum)` once the
   * accumulator reaches one row either way, else nothing. What is left is under one row.
   */
  function WheelStep(accum: real): (step: int)
    ensures AbsR(accum - step as real) < 1.0
    ensures AbsR(accum) < 1.0 ==> step == 0
    ensures accum >= 0.0 ==> step >= 0
    ensures accum <= 0.0 ==> step <= 0
  {
    if accum >= 1.0 || accum <= -1.0 then Trunc(accum) else 0
  }

  /**
   * `_set_scroll_from_thumb`: the thumb's offset along the track as a fraction of the
   * track's free length, scaled to the scroll range and rounded.
   */
  function ThumbScroll(track: Rect, thumbH: int, thumbY: int, total: int, nVisible: int): (r: int)
    ensures ScrollInRange(r, total)
    ensures total <= nVisible ==> r == 0
  {
    if total - nVisible <= 0 then 0
    else ClampedScroll(ScrollAtFraction(ThumbFraction(track, thumbH, thumbY), total - nVisible), total)
  }

  /** `int(round(t * max_scroll))`: a fraction of the scroll range, in whole rows. */
  function ScrollAtFraction(t: real, maxScroll: int): (r: int)
    ensures 0.0 <= t <= 1.0 && maxScroll >= 0 ==> 0 <= r <= maxScroll
  {
    if 0.0 <= t <= 1.0 && maxScroll >= 0 then
      ThumbPosition(t, maxScroll);
      Round(t * maxScroll as real)
    else Round(t * maxScroll as real)
  }

  /** How far along its free length the thumb's top edge at `thumbY` sits, clamped to `[0, 1]`. */
  function ThumbFraction(track: Rect, thumbH: int, thumbY: int): (t: real)
    ensures 0.0 <= t <= 1.0
  {
    var denom := (if track.h - thumbH >= 1 then track.h - thumbH else 1) as real;
    Clamp((thumbY - track.y) as real / denom, 0.0, 1.0)
  }

  /** Dragging the thumb to the top of the track shows the first rows, and to the bottom the last ones. */
  lemma ThumbEnds(track: Rect, thumbH: int, thumbY: int, total: int)
    requires total > MaxVisible
    ensures thumbY <= track.y ==> ThumbScroll(track, thumbH, thumbY, total, MaxVisible) == 0
    ensures thumbY >= track.y + (if track.h - thumbH >= 1 then track.h - thumbH else 1) ==>
      ThumbScroll(track, thumbH, thumbY, total, MaxVisible) == total - MaxVisible
  {
    var denom := (if track.h - thumbH >= 1 then track.h - thumbH else 1) as real;
    var q := (thumbY - track.y) as real / denom;
    if thumbY <= track.y {
      assert q <= 0.0;
      assert ThumbFraction(track, thumbH, thumbY) * (total - MaxVisible) as real == 0 as real;
      assert ScrollAtFraction(ThumbFraction(track, thumbH, thumbY), total - MaxVisible) == 0;
    }
    if thumbY >= track.y + (if track.h - thumbH >= 1 then track.h - thumbH else 1) {
      assert q >= 1.0;
      assert ThumbFraction(track, thumbH, thumbY) * (total - MaxVisible) as real == (total - MaxVisible) as real;
      assert ScrollAtFraction(ThumbFraction(track, thumbH, thumbY), total - MaxVisible) == total - MaxVisible;
    }
  }

  datatype ScrollbarRects = ScrollbarRects(track: Rect, thumb: Rect)

  /**
   * `_scrollbar_rects`: a bar only when the list overflows; the thumb runs in the track's
   * column, is never shorter than its minimum, and lies inside the track for an in-range scroll.
   */
  function Scrollbar(drop: Rect, total: nat, nVisible: nat, scroll: int): (r: Option<ScrollbarRects>)
    ensures r.Some? <==> total > nVisible
    ensures r.Some? ==> r.value.thumb.x == r.value.track.x && r.value.thumb.w == r.value.track.w
    ensures r.Some? ==> r.value.thumb.h >= Scaled(10.0, 8)
    ensures r.Some? && 0 <= scroll <= total - nVisible && r.value.thumb.h <= r.value.track.h ==>
      r.value.track.y <= r.value.thumb.y && r.value.thumb.Bottom() <= r.value.track.Bottom()
  {
    if total <= nVisible then None
    else
      var track := Rect(drop.Right() - Scaled(6.0, 4), drop.y + Scaled(2.0, 2), Scaled(4.0, 3), drop.h - Scaled(4.0, 4));
      var fromFrac := Round(track.h as real * (nVisible as real / total as real));
      var thumbH := if Scaled(10.0, 8) >= fromFrac then Scaled(10.0, 8) else fromFrac;
      var maxScroll := if total - nVisible >= 1 then total - nVisible else 1;
      Some(ScrollbarRects(track, ThumbAt(track, thumbH, scroll, maxScroll)))
  }

  /** The thumb of height `thumbH` for `scroll` out of `maxScroll`: inside the track whenever the scroll is in range. */
  function ThumbAt(track: Rect, thumbH: int, scroll: int, maxScroll: int): (thumb: Rect)
    requires maxScroll >= 1
    ensures thumb.x == track.x && thumb.w == track.w && thumb.h == thumbH
    ensures 0 <= scroll <= maxScroll && thumbH <= track.h ==> track.y <= thumb.y && thumb.Bottom() <= track.Bottom()
  {
    Rect(track.x, track.y + ThumbOffset(scroll, maxScroll, track.h - thumbH), track.w, thumbH)
  }

  /** `round(scroll / max_scroll * d)`: the thumb's offset along a free length `d`, within it for an in-range scroll. */
  function ThumbOffset(scroll: int, maxScroll: int, d: int): (off: int)
    requires maxScroll >= 1
    ensures 0 <= scroll <= maxScroll && d >= 0 ==> 0 <= off <= d
  {
    var t := scroll as real / maxScroll as real;
    if 0 <= scroll <= maxScroll && d >= 0 then
      FractionInUnit(scroll as real, maxScroll as real);
      ThumbPosition(t, d);
      Round(t * d as real)
    else Round(t * d as real)
  }

  lemma FractionInUnit(a: real, b: real)
    requires 0.0 <= a <= b && 0.0 < b
    ensures 0.0 <= a / b <= 1.0
  {
    var q := a / b;
    assert q * b == a;
    assert (q - 1.0) * b == a - b;
    if q < 0.0 {
      MulPositive(-q, b);
    }
    if q > 1.0 {
      MulPositive(q - 1.0, b);
    }
  }

  /** A fraction `t` in `[0, 1]` of a free length `d` rounds to an offset in `[0, d]`. */
  lemma ThumbPosition(t: real, d: int)
    requires 0.0 <= t <= 1.0 && d >= 0
    ensures 0 <= Round(t * d as real) <= d
  {
    ScaleBetween(d as real, t);
    assert t * d as real == d as real * t;
    RoundBetween(t * d as real, 0, d);
  }

  /**
   * The scroll step `handle_event` gives the legacy wheel buttons, as written: button 5 (a
   * wheel notch down) scrolls by -1, and button 4 (up) by +1.
   */
  function ButtonStepAsWritten(button: int): int {
    if button == 5 then -1 else 1
  }

  /** A notch down as a `MOUSEWHEEL` event scrolls the list down, and the same notch as button 5 scrolls it up. */
  lemma ButtonStepOpposesWheel()
    ensures WheelStep(0.0 - (-1.0)) == 1
    ensures ButtonStepAsWritten(5) == -1
  {
    assert Trunc(1.0) == 1;
  }

  /** The step the wheel buttons are meant to take: the same way as a wheel event in that direction. */
  function ButtonStep(button: int): (step: int)
    ensures step == 1 || step == -1
  {
    if button == 5 then 1 else -1
  }

  /** A one-notch wheel event on an empty accumulator and the matching legacy button scroll the same way. */
  lemma ButtonStepMatchesWheel(button: int)
    requires button == 4 || button == 5
    ensures ButtonStep(button) == WheelStep(0.0 - (if button == 5 then -1.0 else 1.0))
  {
    assert Trunc(1.0) == 1 && Trunc(-1.0) == -1;
  }

  /** The drop-down row's fixed geometry: its rectangle and the width of its label column. */
  datatype DropdownLayout = DropdownLayout(rect: Rect, labelW: int) {
    /** `_value_rect`: the box showing the current choice, right of the label. */
    function ValueRect(): Rect {
      var padY := Scaled(2.0, 2);
      Rect(rect.x + labelW, rect.y + padY, rect.w - labelW, rect.h - padY * 2)
    }

    /** `_drop_rect`: the open list, just under the value box. */
    function DropRect(nVisible: int): Rect {
      var v := ValueRect();
      var gap := Scaled(2.0, 2);
      Rect(v.x, v.Bottom() + gap, v.w, nVisible * ItemH + gap)
    }

    /** `min(total, max_visible)`. */
    function NVisible(total: nat): nat {
      if total <= MaxVisible then total else MaxVisible
    }

    /** The mouse is over the value box or the open list. */
    predicate Over(px: int, py: int, total: nat) {
      ValueRect().Contains(px, py) || DropRect(NVisible(total)).Contains(px, py)
    }
  }

  /** The drop-down row's mutable fields. */
  datatype DropdownState = DropdownState(expanded: bool, scroll: int, accum: real, dragging: bool, dragOffsetY: int)

  /** `_collapse`: the list closes and any drag or wheel remainder is dropped; the scroll stays. */
  function Collapsed(s: DropdownState): (c: DropdownState)
    ensures !c.expanded && !c.dragging && c.dragOffsetY == 0 && c.accum == 0.0 && c.scroll == s.scroll
  {
    DropdownState(false, s.scroll, 0.0, false, 0)
  }

  /** An event while the thumb is held: motion over the list moves the thumb, a left release or Escape ends the drag. */
  function DragStep(g: DropdownLayout, s: DropdownState, ev: Event, total: nat): DropdownState {
    var nVis := g.NVisible(total);
    var drop := g.DropRect(nVis);
    var bar := Scrollbar(drop, total, nVis, s.scroll);
    if ev.MouseMotion? && bar.Some? && drop.Contains(ev.px, ev.py) then
      s.(scroll := ThumbScroll(bar.value.track, bar.value.thumb.h, ev.py - s.dragOffsetY, total, nVis))
    else if IsLeftUp(ev) then s.(dragging := false, dragOffsetY := 0)
    else if IsKey(ev, EscapeKey) then Collapsed(s)
    else s
  }

  /** A `MOUSEWHEEL` event with the list open, the mouse at `mouse`. */
  function WheelEventStep(g: DropdownLayout, s: DropdownState, dy: real, total: nat, mouse: (int, int)): (DropdownState, bool) {
    if !g.Over(mouse.0, mouse.1, total) then (s, false)
    else
      var a := s.accum - dy;
      var step := WheelStep(a);
      if step != 0 then (s.(scroll := ScrolledBy(s.scroll, step, total), accum := a - step as real), true)
      else (s.(accum := a), true)
  }

  /** A left click: the value box toggles the list; with the list open, a click picks a row, works the scrollbar, or closes it. */
  function ClickStep(g: DropdownLayout, s: DropdownState, px: int, py: int, total: nat): (r: (DropdownState, bool, Option<nat>))
    ensures !r.1 ==> r == (s, false, None)
    ensures r.2.Some? ==> r.1 && r.2.value < total && !r.0.expanded
    ensures g.ValueRect().Contains(px, py) ==> r.1 && r.0.expanded == !s.expanded && r.2.None?
  {
    if g.ValueRect().Contains(px, py) then
      var e := !s.expanded;
      (DropdownState(e, if e then ClampedScroll(0, total) else s.scroll, 0.0, false, 0), true, None)
    else if !s.expanded then (s, false, None)
    else
      var nVis := g.NVisible(total);
      var s1 := s.(scroll := ClampedScroll(s.scroll, total));
      var drop := g.DropRect(nVis);
      if !drop.Contains(px, py) then (Collapsed(s1), true, None)
      else
        var bar := Scrollbar(drop, total, nVis, s1.scroll);
        if bar.Some? && bar.value.track.Contains(px, py) then
          var thumb := bar.value.thumb;
          if thumb.Contains(px, py) then (s1.(dragging := true, dragOffsetY := py - thumb.y), true, None)
          else (s1.(scroll := ThumbScroll(bar.value.track, thumb.h, py - thumb.h / 2, total, nVis)), true, None)
        else if px >= drop.Right() - Scaled(10.0, 8) then (s1, true, None)
        else
          var idx := s1.scroll + (py - (drop.y + 1)) / ItemH;
          if 0 <= idx < total then (Collapsed(s1), true, Some(idx)) else (Collapsed(s1), true, None)
  }

  /**
   * `DropdownRow.handle_event` on the row's fields, for a list of `total` items and the
   * mouse at `mouse`: the new fields, whether the event was consumed, and the index of the
   * item handed to `on_select_payload`, if any.
   */
  function Step(g: DropdownLayout, s: DropdownState, ev: Event, total: nat, mouse: (int, int)): (r: (DropdownState, bool, Option<nat>))
    ensures !r.1 ==> r.0 == s && r.2.None?
    ensures r.2.Some? ==> r.2.value < total && !r.0.expanded
    ensures IsKey(ev, EscapeKey) ==> !r.0.expanded && (r.1 <==> s.expanded)
  {
    if s.expanded && s.dragging then (DragStep(g, s, ev, total), true, None)
    else if ev.MouseWheel? && s.expanded then
      var (t, c) := WheelEventStep(g, s, ev.dy, total, mouse);
      (t, c, None)
    else if ev.MouseDown? && s.expanded && (ev.button == 4 || ev.button == 5) then
      if g.Over(ev.px, ev.py, total) then (s.(scroll := ScrolledBy(s.scroll, ButtonStep(ev.button), total)), true, None)
      else (s, false, None)
    else if IsLeftDown(ev) then ClickStep(g, s, ev.px, ev.py, total)
    else if IsKey(ev, EscapeKey) then
      if s.expanded then (Collapsed(s), true, None) else (s, false, None)
    else (s, false, None)
  }

  /**
   * The row scrolls a legacy wheel button over the open list by the corrected step, which is
   * the as-written step reversed: button 5 moves one row down, button 4 one row up.
   */
  lemma StepWheelButton(g: DropdownLayout, s: DropdownState, button: int, px: int, py: int, total: nat, mouse: (int, int))
    requires s.expanded && !s.dragging && (button == 4 || button == 5) && g.Over(px, py, total)
    ensures Step(g, s, MouseDown(button, px, py), total, mouse)
            == (s.(scroll := ScrolledBy(s.scroll, -ButtonStepAsWritten(button), total)), true, None)
    ensures button == 5 ==> ScrollInRange(s.scroll + 1, total) ==> Step(g, s, MouseDown(button, px, py), total, mouse).0.scroll == s.scroll + 1
  {
  }

  /** Every scroll the row writes is in range, so a scroll in range stays in range. */
  lemma StepScrollInRange(g: DropdownLayout, s: DropdownState, ev: Event, total: nat, mouse: (int, int))
    ensures var r := Step(g, s, ev, total, mouse).0;
      r.scroll == s.scroll || ScrollInRange(r.scroll, total)
  {
  }

  /**
   * An item is chosen only by a left click in the open list, only when its index is in
   * range, at the clamped scroll plus the clicked row, and the list then closes.
   */
  lemma StepSelection(g: DropdownLayout, s: DropdownState, ev: Event, total: nat, mouse: (int, int))
    ensures var (r, consumed, selected) := Step(g, s, ev, total, mouse);
      selected.Some? ==>
        && IsLeftDown(ev) && s.expanded && !s.dragging && consumed
        && selected.value < total
        && selected.value == ClampedScroll(s.scroll, total) + (ev.py - (g.DropRect(g.NVisible(total)).y + 1)) / ItemH
        && r == Collapsed(s.(scroll := ClampedScroll(s.scroll, total)))
  {
  }

  /** Over the open list, the wheel path always leaves less than one row in the accumulator. */
  lemma StepWheelRemainder(g: DropdownLayout, s: DropdownState, ev: Event, total: nat, mouse: (int, int))
    requires ev.MouseWheel? && s.expanded && !s.dragging && g.Over(mouse.0, mouse.1, total)
    ensures var (r, consumed, _) := Step(g, s, ev, total, mouse);
      consumed && AbsR(r.accum) < 1.0
      && r.scroll == (if WheelStep(s.accum - ev.dy) != 0 then ScrolledBy(s.scroll, WheelStep(s.accum - ev.dy), total) else s.scroll)
  {
  }

  /** A thumb drag holds the mouse: every event is consumed and none selects an item. */
  lemma StepDragModal(g: DropdownLayout, s: DropdownState, ev: Event, total: nat, mouse: (int, int))
    requires s.expanded && s.dragging
    ensures Step(g, s, ev, total, mouse).1 && Step(g, s, ev, total, mouse).2 == None
  {
  }

  /** Escape closes an open list and is consumed; a closed row reacts to nothing but a left click. */
  lemma StepClosed(g: DropdownLayout, s: DropdownState, ev: Event, total: nat, mouse: (int, int))
    ensures IsKey(ev, EscapeKey) && s.expanded ==> Step(g, s, ev, total, mouse) == (Collapsed(s), true, None)
    ensures !s.expanded && !IsLeftDown(ev) ==> Step(g, s, ev, total, mouse) == (s, false, None)
  {
  }

  class DropdownRow {
    const layout: DropdownLayout
    var expanded: bool
    var scroll: int
    var scrollAccum: real
    var scrollDragging: bool
    var dragOffsetY: int

    function State(): DropdownState
      reads this
    {
      DropdownState(expanded, scroll, scrollAccum, scrollDragging, dragOffsetY)
    }

    constructor(rect: Rect, labelW: int)
      ensures layout == DropdownLayout(rect, labelW)
      ensures State() == DropdownState(false, 0, 0.0, false, 0)
    {
      layout := DropdownLayout(rect, labelW);
      expanded, scroll, scrollAccum := false, 0, 0.0;
      scrollDragging, dragOffsetY := false, 0;
    }

    method ClampScroll(total: nat)
      modifies this`scroll
      ensures scroll == ClampedScroll(old(scroll), total)
    {
      if total <= MaxVisible {
        scroll := 0;
        return;
      }
      var maxScroll := if total - MaxVisible > 0 then total - MaxVisible else 0;
      if scroll < 0 {
        scroll := 0;
      } else if scroll > maxScroll {
        scroll := maxScroll;
      }
    }

    method ScrollBy(dy: int, total: nat)
      modifies this`scroll
      ensures scroll == ScrolledBy(old(scroll), dy, total)
    {
      if total <= MaxVisible {
        scroll := 0;
        return;
      }
      scroll := scroll + dy;
      ClampScroll(total);
    }

    method SetScrollFromThumb(track: Rect, thumbH: int, thumbY: int, total: nat, nVisible: int)
      modifies this`scroll
      ensures scroll == ThumbScroll(track, thumbH, thumbY, total, nVisible)
    {
      var maxScroll := if total - nVisible > 0 then total - nVisible else 0;
      if maxScroll <= 0 {
        scroll := 0;
        return;
      }
      var t := ThumbFraction(track, thumbH, thumbY);
      scroll := ScrollAtFraction(t, maxScroll);
      ClampScroll(total);
    }

    method Collapse()
      modifies this
      ensures State() == Collapsed(old(State()))
    {
      expanded := false;
      scrollDragging := false;
      dragOffsetY := 0;
      scrollAccum := 0.0;
    }

    method DragEvent(ev: Event, total: nat)
      modifies this
      ensures State() == DragStep(layout, old(State()), ev, total)
    {
      var nVis := layout.NVisible(total);
      var drop := layout.DropRect(nVis);
      var bar := Scrollbar(drop, total, nVis, scroll);
      if ev.MouseMotion? && bar.Some? {
        if drop.Contains(ev.px, ev.py) {
          SetScrollFromThumb(bar.value.track, bar.value.thumb.h, ev.py - dragOffsetY, total, nVis);
          return;
        }
      }
      if ev.MouseUp? && ev.button == 1 {
        scrollDragging := false;
        dragOffsetY := 0;
        return;
      }
      if ev.KeyDown? && ev.key == EscapeKey {
        Collapse();
      }
    }

    method WheelEvent(dy: real, total: nat, mouse: (int, int)) returns (consumed: bool)
      modifies this
      ensures (State(), consumed) == WheelEventStep(layout, old(State()), dy, total, mouse)
    {
      var nVis := layout.NVisible(total);
      if !(layout.ValueRect().Contains(mouse.0, mouse.1) || layout.DropRect(nVis).Contains(mouse.0, mouse.1)) {
        return false;
      }
      scrollAccum := scrollAccum + -dy;
      var step := 0;
      if scrollAccum >= 1.0 {
        step := Trunc(scrollAccum);
      } else if scrollAccum <= -1.0 {
        step := Trunc(scrollAccum);
      }
      if step != 0 {
        ScrollBy(step, total);
        scrollAccum := scrollAccum - step as real;
      }
      return true;
    }

    method ClickEvent(px: int, py: int, total: nat) returns (consumed: bool, selected: Option<nat>)
      modifies this
      ensures (State(), consumed, selected) == ClickStep(layout, old(State()), px, py, total)
    {
      selected := None;
      if layout.ValueRect().Contains(px, py) {
        expanded := !expanded;
        scrollDragging := false;
        dragOffsetY := 0;
        scrollAccum := 0.0;
        if expanded {
          scroll := 0;
          ClampScroll(total);
        }
        return true, None;
      }
      if !expanded {
        return false, None;
      }
      var nVis := layout.NVisible(total);
      ClampScroll(total);
      var drop := layout.DropRect(nVis);
      if drop.Contains(px, py) {
        var bar := Scrollbar(drop, total, nVis, scroll);
        if bar.Some? && bar.value.track.Contains(px, py) {
          var thumb := bar.value.thumb;
          if thumb.Contains(px, py) {
            scrollDragging := true;
            dragOffsetY := py - thumb.y;
          } else {
            var target := py - thumb.h / 2;
            SetScrollFromThumb(bar.value.track, thumb.h, target, total, nVis);
          }
          return true, None;
        }
        if px >= drop.Right() - Scaled(10.0, 8) {
          return true, None;
        }
        var row := (py - (drop.y + 1)) / ItemH;
        var idx := scroll + row;
        if 0 <= idx < total {
          selected := Some(idx);
          Collapse();
          return true, selected;
        }
      }
      Collapse();
      return true, None;
    }

    /** `handle_event`, proved to do what `Step` says. */
    method HandleEvent(ev: Event, total: nat, mouse: (int, int)) returns (consumed: bool, selected: Option<nat>)
      modifies this
      ensures (State(), consumed, selected) == Step(layout, old(State()), ev, total, mouse)
    {
      if expanded && scrollDragging {
        DragEvent(ev, total);
        return true, None;
      }
      if ev.MouseWheel? && expanded {
        consumed := WheelEvent(ev.dy, total, mouse);
        return consumed, None;
      }
      if ev.MouseDown? && expanded && (ev.button == 4 || ev.button == 5) {
        if layout.Over(ev.px, ev.py, total) {
          ScrollBy(ButtonStep(ev.button), total);
          return true, None;
        }
        return false, None;
      }
      if ev.MouseDown? && ev.button == 1 {
        consumed, selected := ClickEvent(ev.px, ev.py, total);
        return;
      }
      if ev.KeyDown? && ev.key == EscapeKey {
        if expanded {
          Collapse();
          return true, None;
        }
        return false, None;
      }
      return false, None;
    }
  }

  // ---------------------------------------------------------------------------
  // SliderWithBoxRow

  /** The slider row's settings, fixed when it is built. */
  datatype SliderConfig = SliderConfig(
    rect: Rect, labelW: int, boxW: int,
    minValue: int, maxValue: int,
    snaps: seq<int>, snapWindow: int,
    allowEmpty: bool, emptyValue: int)
  {
    /** `int(clamp(float(v), float(min_value), float(max_value)))`. */
    function Clamped(v: int): int {
      ClampInt(v, minValue, maxValue)
    }

    /** `_slider_rect`: the track between the label and the text box, never narrower than its minimum. */
    function SliderRect(): Rect {
      var h := Scaled(18.0, 14);
      var w := rect.w - labelW - boxW - Scaled(10.0, 8);
      Rect(rect.x + labelW, rect.y + (rect.h - h) / 2, if Scaled(10.0, 10) >= w then Scaled(10.0, 10) else w, h)
    }

    /** `_box_rect`: the text box at the row's right end. */
    function BoxRect(): Rect {
      var h := Scaled(24.0, 18);
      Rect(rect.Right() - boxW, rect.y + (rect.h - h) / 2, boxW, h)
    }

    /**
     * `_value_from_mouse`: the mouse's place along the track scaled to the value range,
     * rounded, snapped, and clamped, so inside `[min_value, max_value]`.
     */
    function MouseValue(mx: int): (v: int)
      ensures minValue <= maxValue ==> minValue <= v <= maxValue
    {
      var raw := ValueAtFraction(minValue, maxValue, SliderFraction(mx));
      Clamped(if |snaps| > 0 then Snapped(raw, snaps, snapWindow) else raw)
    }

    /** How far along the track the mouse is, clamped to `[0, 1]`. */
    function SliderFraction(mx: int): (t: real)
      ensures 0.0 <= t <= 1.0
    {
      var srect := SliderRect();
      Clamp((mx - srect.x) as real / (if srect.w >= 1 then srect.w else 1) as real, 0.0, 1.0)
    }

    /**
     * What `_commit_text` commits for the box text, or `None` when it only restores the box:
     * blank text commits `empty_value` when the row allows it, text that is not an integer
     * commits nothing, and a typed `empty_value` is not snapped.
     */
    function TextTarget(text: string): (r: Option<int>)
      ensures Strip(text) == "" ==> r == (if allowEmpty then Some(emptyValue) else None)
      ensures Strip(text) != "" && ParseInt(Strip(text)).None? ==> r.None?
      ensures Strip(text) != "" && ParseInt(Strip(text)).Some? ==>
        var v := ParseInt(Strip(text)).value;
        r == Some(if |snaps| == 0 || (allowEmpty && v == emptyValue) then v else Snapped(v, snaps, snapWindow))
    {
      var txt := Strip(text);
      if txt == "" then
        if allowEmpty then Some(emptyValue) else None
      else
        match ParseInt(txt)
        case None => None
        case Some(v) => Some(if |snaps| > 0 && !(allowEmpty && v == emptyValue) then Snapped(v, snaps, snapWindow) else v)
    }
  }

  /** `int(round(min_value + t * (max_value - min_value)))`: the value a fraction `t` of the way along the range. */
  function ValueAtFraction(minValue: int, maxValue: int, t: real): (v: int)
    ensures t == 0.0 ==> v == minValue
    ensures t == 1.0 ==> v == maxValue
  {
    Round(minValue as real + t * (maxValue - minValue) as real)
  }

  /** With no snap points, the track's left end gives `min_value` and its right end `max_value`. */
  lemma MouseValueEnds(cfg: SliderConfig, mx: int)
    requires cfg.snaps == [] && cfg.minValue <= cfg.maxValue
    ensures mx <= cfg.SliderRect().x ==> cfg.MouseValue(mx) == cfg.minValue
    ensures mx >= cfg.SliderRect().Right() ==> cfg.MouseValue(mx) == cfg.maxValue
  {
    var srect := cfg.SliderRect();
    var span := (cfg.maxValue - cfg.minValue) as real;
    var q := (mx - srect.x) as real / srect.w as real;
    if mx <= srect.x {
      assert q <= 0.0;
    }
    if mx >= srect.Right() {
      QuotientAtLeastOne((mx - srect.x) as real, srect.w as real);
    }
  }

  /**
   * The box text `str(v)` reads back as `v`, snapped as a typed value would be: so committing
   * the text the box shows after a commit changes nothing when `v` is a snap point or there are none.
   */
  lemma TextTargetOfDecimal(cfg: SliderConfig, v: int)
    ensures cfg.TextTarget(Decimal(v)) ==
      Some(if |cfg.snaps| == 0 || (cfg.allowEmpty && v == cfg.emptyValue) then v else Snapped(v, cfg.snaps, cfg.snapWindow))
  {
    var d := Decimal(v);
    assert d != [] && !IsSpace(d[0]) && !IsSpace(d[|d| - 1]) by {
      if v < 0 {
        assert d[|d| - 1] == NatDecimal(-v)[|NatDecimal(-v)| - 1];
        assert IsDigit(d[|d| - 1]);
      } else {
        assert IsDigit(d[0]) && IsDigit(d[|d| - 1]);
      }
    }
    StripClean(d);
    ParseDecimal(v);
  }

  /**
   * A key press in the focused box other than Return and Escape: Backspace drops the last
   * character (nothing on an empty box), a digit is appended, anything else is ignored and
   * not consumed.
   */
  function EditedText(text: string, key: Key, ch: string): (r: (string, bool))
    ensures key == BackspaceKey ==> r.1 && r.0 <= text && |r.0| == (if text == [] then 0 else |text| - 1)
    ensures key != BackspaceKey ==> (r.1 <==> ch != [] && AllDigits(ch)) && r.0 == (if r.1 then text + ch else text)
  {
    if key == BackspaceKey then (if text != [] then text[..|text| - 1] else text, true)
    else if ch != [] && AllDigits(ch) then (text + ch, true)
    else (text, false)
  }

  /** Backspace takes back a typed digit. */
  lemma BackspaceUndoesDigit(text: string, key: Key, d: char)
    requires key != BackspaceKey && IsDigit(d)
    ensures EditedText(EditedText(text, key, [d]).0, BackspaceKey, "").0 == text
  {
    assert (text + [d])[..|text|] == text;
  }

  /** The slider row's mutable fields. */
  datatype SliderState = SliderState(value: int, dragging: bool, focused: bool, editText: string)

  /** `_commit_value(v)`: the clamped value is kept and shown, and `on_change` hears of it only when it changed. */
  function CommitValueStep(cfg: SliderConfig, st: SliderState, v: int): (r: (SliderState, Option<int>))
    ensures r.0.value == cfg.Clamped(v) && r.0.editText == Decimal(r.0.value)
    ensures r.0.dragging == st.dragging && r.0.focused == st.focused
    ensures r.1 == (if r.0.value != st.value then Some(r.0.value) else None)
  {
    var c := cfg.Clamped(v);
    if c != st.value then (st.(value := c, editText := Decimal(c)), Some(c))
    else (st.(editText := Decimal(st.value)), None)
  }

  /** `_commit_text`: commits what the text means, or puts the current value back in the box. */
  function CommitTextStep(cfg: SliderConfig, st: SliderState): (r: (SliderState, Option<int>))
    ensures r.0.editText == Decimal(r.0.value)
    ensures cfg.TextTarget(st.editText).None? ==> r.0.value == st.value && r.1 == None
    ensures cfg.TextTarget(st.editText).Some? ==> r.0.value == cfg.Clamped(cfg.TextTarget(st.editText).value)
    ensures r.1.Some? ==> r.1.value == r.0.value
  {
    match cfg.TextTarget(st.editText)
    case None => (st.(editText := Decimal(st.value)), None)
    case Some(v) => CommitValueStep(cfg, st, v)
  }

  /** A press in the slider track (widened by a margin) starts a drag and jumps the value to the mouse. */
  predicate OnTrack(cfg: SliderConfig, px: int, py: int) {
    Inflate(cfg.SliderRect(), Scaled(8.0, 6), Scaled(10.0, 8)).Contains(px, py)
  }

  /**
   * `SliderWithBoxRow.handle_event` on the row's fields: the new fields, whether the event
   * was consumed, and the value handed to `on_change`, if any.
   */
  function SliderStep(cfg: SliderConfig, st: SliderState, ev: Event): (r: (SliderState, bool, Option<int>))
    ensures !r.1 ==> r.0 == st && r.2.None?
    ensures r.2.Some? ==> r.1 && r.2.value == r.0.value
  {
    if IsLeftDown(ev) then SliderClickStep(cfg, st, ev.px, ev.py)
    else if IsLeftUp(ev) && st.dragging then (st.(dragging := false), true, None)
    else if ev.MouseMotion? && st.dragging then
      var v := cfg.MouseValue(ev.px);
      (st.(value := v, editText := Decimal(v)), true, Some(v))
    else if ev.KeyDown? && st.focused then SliderKeyStep(cfg, st, ev.key, ev.text)
    else (st, false, None)
  }

  /** A left press: on the track it starts a drag, on the box it focuses it, elsewhere it commits a focused box. */
  function SliderClickStep(cfg: SliderConfig, st: SliderState, px: int, py: int): (r: (SliderState, bool, Option<int>))
    ensures !r.1 ==> r.0 == st && r.2.None?
    ensures r.2.Some? ==> r.1 && r.2.value == r.0.value
  {
    if OnTrack(cfg, px, py) then
      var v := cfg.MouseValue(px);
      (SliderState(v, true, false, Decimal(v)), true, Some(v))
    else if cfg.BoxRect().Contains(px, py) then
      (st.(focused := true, editText := if cfg.allowEmpty && st.value == cfg.emptyValue then "" else Decimal(st.value)), true, None)
    else if st.focused then
      var (c, n) := CommitTextStep(cfg, st);
      (c.(focused := false), true, n)
    else (st, false, None)
  }

  /** A key press in the focused box: Return commits, Escape puts the value back, other keys edit. */
  function SliderKeyStep(cfg: SliderConfig, st: SliderState, key: Key, text: string): (r: (SliderState, bool, Option<int>))
    ensures !r.1 ==> r.0 == st && r.2.None?
    ensures r.2.Some? ==> r.1 && r.2.value == r.0.value
  {
    if key == ReturnKey then
      var (c, n) := CommitTextStep(cfg, st);
      (c.(focused := false), true, n)
    else if key == EscapeKey then (st.(editText := Decimal(st.value), focused := false), true, None)
    else
      var (t, consumed) := EditedText(st.editText, key, text);
      (st.(editText := t), consumed, None)
  }

  /**
   * Leaving the box, by Return or by a click elsewhere, always shows the committed value, and
   * `on_change` hears only of a real change; Escape puts the value back without committing.
   */
  lemma SliderLeavesBox(cfg: SliderConfig, st: SliderState, ev: Event)
    requires st.focused
    requires IsKey(ev, ReturnKey) || IsKey(ev, EscapeKey) ||
      (IsLeftDown(ev) && !OnTrack(cfg, ev.px, ev.py) && !cfg.BoxRect().Contains(ev.px, ev.py))
    ensures var (r, consumed, notify) := SliderStep(cfg, st, ev);
      && consumed && !r.focused && r.editText == Decimal(r.value)
      && (notify.Some? ==> notify.value == r.value != st.value)
      && (IsKey(ev, EscapeKey) ==> r.value == st.value && notify == None)
  {
  }

  /** Dragging keeps the value in range and reports every new position. */
  lemma SliderDragInRange(cfg: SliderConfig, st: SliderState, ev: Event)
    requires cfg.minValue <= cfg.maxValue
    requires (IsLeftDown(ev) && OnTrack(cfg, ev.px, ev.py)) || (ev.MouseMotion? && st.dragging)
    ensures var (r, consumed, notify) := SliderStep(cfg, st, ev);
      consumed && r.dragging && cfg.minValue <= r.value <= cfg.maxValue && notify == Some(r.value)
  {
  }

  class SliderWithBoxRow {
    const cfg: SliderConfig
    var value: int
    var dragging: bool
    var focused: bool
    var editText: string

    function State(): SliderState
      reads this
    {
      SliderState(value, dragging, focused, editText)
    }

    /** The initial value is clamped into range and shown in the box; the snap window is at least 1. */
    constructor(rect: Rect, minValue: int, maxValue: int, value: int, snaps: seq<int>, snapWindow: int,
                allowEmpty: bool, emptyValue: int, labelW: int, boxW: int)
      ensures cfg == SliderConfig(rect, labelW, boxW, minValue, maxValue, snaps,
                                  if snapWindow >= 1 then snapWindow else 1, allowEmpty, emptyValue)
      ensures this.value == ClampInt(value, minValue, maxValue)
      ensures !dragging && !focused && editText == Decimal(this.value)
    {
      cfg := SliderConfig(rect, labelW, boxW, minValue, maxValue, snaps,
                          if snapWindow >= 1 then snapWindow else 1, allowEmpty, emptyValue);
      this.value := ClampInt(value, minValue, maxValue);
      dragging, focused := false, false;
      editText := Decimal(ClampInt(value, minValue, maxValue));
    }

    method ValueFromMouse(mx: int) returns (v: int)
      ensures v == cfg.MouseValue(mx)
    {
      var t := cfg.SliderFraction(mx);
      var raw := ValueAtFraction(cfg.minValue, cfg.maxValue, t);
      if |cfg.snaps| > 0 {
        raw := NearestSnap(raw, cfg.snaps, cfg.snapWindow);
      }
      v := ClampInt(raw, cfg.minValue, cfg.maxValue);
    }

    method CommitValue(v: int) returns (notify: Option<int>)
      modifies this
      ensures (State(), notify) == CommitValueStep(cfg, old(State()), v)
    {
      var c := ClampInt(v, cfg.minValue, cfg.maxValue);
      notify := None;
      if c != value {
        value := c;
        editText := Decimal(value);
        notify := Some(value);
      } else {
        editText := Decimal(value);
      }
    }

    method CommitText() returns (notify: Option<int>)
      modifies this
      ensures (State(), notify) == CommitTextStep(cfg, old(State()))
    {
      var txt := Strip(editText);
      if txt == "" && cfg.allowEmpty {
        notify := CommitValue(cfg.emptyValue);
        return;
      }
      if txt == "" {
        editText := Decimal(value);
        return None;
      }
      var parsed := ParseInt(txt);
      if parsed.None? {
        editText := Decimal(value);
        return None;
      }
      var v := parsed.value;
      if |cfg.snaps| > 0 && !(cfg.allowEmpty && v == cfg.emptyValue) {
        v := NearestSnap(v, cfg.snaps, cfg.snapWindow);
      }
      notify := CommitValue(v);
    }

    /** `handle_event`, proved to do what `SliderStep` says. */
    method HandleEvent(ev: Event) returns (consumed: bool, notify: Option<int>)
      modifies this
      ensures (State(), consumed, notify) == SliderStep(cfg, old(State()), ev)
    {
      if ev.MouseDown? && ev.button == 1 {
        consumed, notify := ClickEvent(ev.px, ev.py);
        return;
      }
      if ev.MouseUp? && ev.button == 1 {
        if dragging {
          dragging := false;
          return true, None;
        }
      }
      if ev.MouseMotion? {
        if dragging {
          value := ValueFromMouse(ev.px);
          editText := Decimal(value);
          return true, Some(value);
        }
      }
      if ev.KeyDown? && focused {
        consumed, notify := KeyEvent(ev.key, ev.text);
        return;
      }
      return false, None;
    }

    method ClickEvent(px: int, py: int) returns (consumed: bool, notify: Option<int>)
      modifies this
      ensures (State(), consumed, notify) == SliderClickStep(cfg, old(State()), px, py)
    {
      var srect := cfg.SliderRect();
      var brect := cfg.BoxRect();
      if Inflate(srect, Scaled(8.0, 6), Scaled(10.0, 8)).Contains(px, py) {
        dragging := true;
        focused := false;
        value := ValueFromMouse(px);
        editText := Decimal(value);
        return true, Some(value);
      }
      if brect.Contains(px, py) {
        focused := true;
        editText := if cfg.allowEmpty && value == cfg.emptyValue then "" else Decimal(value);
        return true, None;
      }
      if focused {
        notify := CommitText();
        focused := false;
        return true, notify;
      }
      return false, None;
    }

    method KeyEvent(key: Key, ch: string) returns (consumed: bool, notify: Option<int>)
      modifies this
      ensures (State(), consumed, notify) == SliderKeyStep(cfg, old(State()), key, ch)
    {
      if key == ReturnKey {
        notify := CommitText();
        focused := false;
        return true, notify;
      }
      if key == EscapeKey {
        editText := Decimal(value);
        focused := false;
        return true, None;
      }
      if key == BackspaceKey {
        if editText != [] {
          editText := editText[..|editText| - 1];
        }
        return true, None;
      }
      if ch != [] && AllDigits(ch) {
        editText := editText + ch;
        return true, None;
      }
      return false, None;
    }
  }
}
