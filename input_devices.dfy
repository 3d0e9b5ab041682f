/**
 * The controller bookkeeping of `input_devices.py`: which joystick is active, and the
 * per-tick sample of its left stick and of the buttons pressed since the previous sample.
 * The joystick itself is outside the model: opening a device is an `Option<Joystick>`
 * parameter (`None` when pygame raised), and readings are passed in as sequences.
 */
module InputDevices {
  import opened Wrappers
  import opened Util
  import Config

  /** What an opened device reports about itself. */
  datatype Joystick = Joystick(instanceId: int, numButtons: nat)

  /** One controller reading handed to the engine. */
  datatype ControllerSample = ControllerSample(lx: real, ly: real, buttonDownEdges: seq<int>, anyButtonEdge: bool)

  function AllFalse(n: nat): (s: seq<bool>)
    ensures |s| == n && forall i :: 0 <= i < n ==> !s[i]
  {
    seq(n, _ => false)
  }

  /** The indices, in increasing order, of the buttons that are down in `cur` and were up in `prev`. */
  function RisingEdges(prev: seq<bool>, cur: seq<bool>): seq<int>
    requires |prev| == |cur|
  {
    if cur == [] then []
    else
      var n := |cur| - 1;
      RisingEdges(prev[..n], cur[..n]) + (if cur[n] && !prev[n] then [n] else [])
  }

  /** An index is an edge exactly when that button went from up to down; edges are strictly increasing. */
  lemma {:induction false} RisingEdgesSpec(prev: seq<bool>, cur: seq<bool>)
    requires |prev| == |cur|
    ensures forall i :: i in RisingEdges(prev, cur) <==> 0 <= i < |cur| && cur[i] && !prev[i]
    ensures forall j, k :: 0 <= j < k < |RisingEdges(prev, cur)| ==> RisingEdges(prev, cur)[j] < RisingEdges(prev, cur)[k]
    ensures |RisingEdges(prev, cur)| <= |cur|
  {
    if cur != [] {
      var n := |cur| - 1;
      RisingEdgesSpec(prev[..n], cur[..n]);
      var e := RisingEdges(prev[..n], cur[..n]);
      var r := RisingEdges(prev, cur);
      assert r == e + (if cur[n] && !prev[n] then [n] else []);
      forall j, k | 0 <= j < k < |r|
        ensures r[j] < r[k]
      {
        if k >= |e| {
          assert r[j] == e[j] && e[j] in e;
        }
      }
    }
  }

  /** Scanning one more button appends it when it is a rising edge. */
  lemma RisingEdgesStep(prev: seq<bool>, cur: seq<bool>, i: int)
    requires |prev| == |cur| && 0 <= i < |cur|
    ensures RisingEdges(prev[..i + 1], cur[..i + 1])
      == RisingEdges(prev[..i], cur[..i]) + (if cur[i] && !prev[i] then [i] else [])
  {
    assert prev[..i + 1][..i] == prev[..i] && cur[..i + 1][..i] == cur[..i];
  }

  /** After a change of button count every held button counts as newly pressed. */
  lemma FreshButtonsAllEdges(cur: seq<bool>)
    ensures forall i :: i in RisingEdges(AllFalse(|cur|), cur) <==> 0 <= i < |cur| && cur[i]
  {
    RisingEdgesSpec(AllFalse(|cur|), cur);
  }

  class ControllerManager {
    var active: Option<Joystick>
    var activeDeviceIndex: Option<int>
    var activeInstanceId: Option<int>
    const axisLx: nat
    const axisLy: nat
    var prevButtons: seq<bool>
    var lastButtonDebug: string

    /** The active fields agree: either all empty, or all describing the one open device. */
    predicate Valid()
      reads this
    {
      && (active.None? <==> activeDeviceIndex.None?)
      && (active.None? ==> activeInstanceId.None? && prevButtons == [])
      && (active.Some? ==> activeInstanceId == Some(active.value.instanceId))
    }

    /** No device at first; the stick is axes 0 and 1. */
    constructor ()
      ensures Valid()
      ensures active.None? && axisLx == 0 && axisLy == 1 && lastButtonDebug == ""
    {
      active := None;
      activeDeviceIndex := None;
      activeInstanceId := None;
      axisLx := 0;
      axisLy := 1;
      prevButtons := [];
      lastButtonDebug := "";
    }

    /** `_detach`: forget the active device and its button memory. */
    method Detach()
      modifies this
      ensures Valid()
      ensures active.None? && activeDeviceIndex.None? && activeInstanceId.None? && prevButtons == []
      ensures lastButtonDebug == old(lastButtonDebug)
    {
      active := None;
      activeDeviceIndex := None;
      activeInstanceId := None;
      prevButtons := [];
    }

    /**
     * `select_device`: `None` detaches; re-selecting the active index does nothing; otherwise the
     * old device is detached and `device` (the result of opening `deviceIndex`, `None` when that
     * failed) becomes active with all its buttons up, or nothing is active.
     */
    method SelectDevice(deviceIndex: Option<int>, device: Option<Joystick>)
      requires Valid()
      modifies this
      ensures Valid()
      ensures deviceIndex.None? ==> active.None?
      ensures deviceIndex.Some? && old(activeDeviceIndex) == deviceIndex && old(active).Some? ==>
                active == old(active) && activeDeviceIndex == old(activeDeviceIndex)
                && activeInstanceId == old(activeInstanceId) && prevButtons == old(prevButtons)
      ensures deviceIndex.Some? && !(old(activeDeviceIndex) == deviceIndex && old(active).Some?) ==>
                active == device
                && (device.Some? ==> activeDeviceIndex == deviceIndex && prevButtons == AllFalse(device.value.numButtons))
      ensures lastButtonDebug == old(lastButtonDebug)
    {
      if deviceIndex.None? {
        Detach();
        return;
      }

      if activeDeviceIndex == deviceIndex && active.Some? {
        return;
      }

      Detach();
      if device.Some? {
        active := device;
        activeDeviceIndex := deviceIndex;
        activeInstanceId := Some(device.value.instanceId);
        prevButtons := AllFalse(device.value.numButtons);
      } else {
        active := None;
        activeDeviceIndex := None;
        activeInstanceId := None;
        prevButtons := [];
      }
    }

    /** `handle_device_added`: a hot-plugged device is selected only when none is active. */
    method HandleDeviceAdded(deviceIndex: int, device: Option<Joystick>)
      requires Valid()
      modifies this
      ensures Valid()
      ensures old(active).Some? ==> active == old(active) && activeDeviceIndex == old(activeDeviceIndex)
                                    && prevButtons == old(prevButtons)
      ensures old(active).None? ==> active == device && (device.Some? ==> activeDeviceIndex == Some(deviceIndex))
    {
      if active.None? {
        SelectDevice(Some(deviceIndex), device);
      }
    }

    /** `handle_device_removed`: only the removal of the active device's instance detaches it. */
    method HandleDeviceRemoved(instanceId: int)
      requires Valid()
      modifies this
      ensures Valid()
      ensures old(activeInstanceId) == Some(instanceId) ==> active.None?
      ensures old(activeInstanceId) != Some(instanceId) ==>
                active == old(active) && activeDeviceIndex == old(activeDeviceIndex) && prevButtons == old(prevButtons)
    {
      if activeInstanceId == Some(instanceId) {
        SelectDevice(None, None);
      }
    }

    /**
     * `peek_axes` / `_read_axes`: the left stick with the deadzone applied, given the device's raw
     * axis values; `(0, 0)` with no device or when the device has too few axes. It reads the
     * button memory but never changes it.
     */
    function PeekAxes(deadzone: real, axes: seq<real>): (r: (real, real))
      reads this
      ensures active.None? || |axes| <= axisLx || |axes| <= axisLy ==> r == (0.0, 0.0)
      ensures -1.0 <= r.0 <= 1.0 && -1.0 <= r.1 <= 1.0
    {
      if active.None? then (0.0, 0.0)
      else if |axes| > (if axisLx >= axisLy then axisLx else axisLy) then
        (ApplyDeadzone(axes[axisLx], deadzone), ApplyDeadzone(axes[axisLy], deadzone))
      else (0.0, 0.0)
    }

    /**
     * `sample`: the stick and the button-down edges since the previous sample, given the raw
     * axes and the current button states. The button memory is first reset to all-up if the
     * button count changed, and afterwards holds the current states.
     */
    method Sample(deadzone: real, axes: seq<real>, buttons: seq<bool>) returns (s: ControllerSample)
      requires Valid()
      requires active.Some? ==> |buttons| == active.value.numButtons
      modifies this
      ensures Valid()
      ensures active == old(active) && activeDeviceIndex == old(activeDeviceIndex) && activeInstanceId == old(activeInstanceId)
      ensures old(active).None? ==> s == ControllerSample(0.0, 0.0, [], false) && prevButtons == old(prevButtons) && lastButtonDebug == ""
      ensures old(active).Some? ==>
                var base := if |old(prevButtons)| == |buttons| then old(prevButtons) else AllFalse(|buttons|);
                && (s.lx, s.ly) == old(PeekAxes(deadzone, axes))
                && s.buttonDownEdges == RisingEdges(base, buttons)
                && prevButtons == buttons
                && lastButtonDebug == (if s.buttonDownEdges == [] then old(lastButtonDebug)
                                       else Config.ButtonLabel(s.buttonDownEdges[|s.buttonDownEdges| - 1]))
      ensures s.anyButtonEdge <==> s.buttonDownEdges != []
    {
      if active.None? {
        s := ControllerSample(0.0, 0.0, [], false);
        lastButtonDebug := "";
        return;
      }

      var stick := PeekAxes(deadzone, axes);
      var edges := SampleButtons(buttons);
      s := ControllerSample(stick.0, stick.1, edges, edges != []);
    }

    /** The button half of `sample`: reset the memory on a change of button count, then scan. */
    method SampleButtons(buttons: seq<bool>) returns (edges: seq<int>)
      modifies this
      ensures var base := if |old(prevButtons)| == |buttons| then old(prevButtons) else AllFalse(|buttons|);
              edges == RisingEdges(base, buttons)
      ensures prevButtons == buttons
      ensures lastButtonDebug == (if edges == [] then old(lastButtonDebug) else Config.ButtonLabel(edges[|edges| - 1]))
      ensures active == old(active) && activeDeviceIndex == old(activeDeviceIndex) && activeInstanceId == old(activeInstanceId)
    {
      if |prevButtons| != |buttons| {
        prevButtons := AllFalse(|buttons|);
      }
      edges := ScanButtons(buttons);
    }

    /**
     * The loop of `sample`: each button that is down now and was up before is recorded as an
     * edge (and named in the debug line), and the memory takes the current state.
     */
    method ScanButtons(buttons: seq<bool>) returns (edges: seq<int>)
      requires |prevButtons| == |buttons|
      modifies this`prevButtons, this`lastButtonDebug
      ensures edges == RisingEdges(old(prevButtons), buttons)
      ensures prevButtons == buttons
      ensures lastButtonDebug == (if edges == [] then old(lastButtonDebug) else Config.ButtonLabel(edges[|edges| - 1]))
      ensures active == old(active) && activeDeviceIndex == old(activeDeviceIndex) && activeInstanceId == old(activeInstanceId)
    {
      var nb := |buttons|;
      ghost var base := prevButtons;
      ghost var lastEdge := 0;
      edges := [];
      for i := 0 to nb
        invariant |prevButtons| == nb
        invariant forall k :: 0 <= k < i ==> prevButtons[k] == buttons[k]
        invariant forall k :: i <= k < nb ==> prevButtons[k] == base[k]
        invariant edges == RisingEdges(base[..i], buttons[..i])
        invariant edges == [] ==> lastButtonDebug == old(lastButtonDebug)
        invariant edges != [] ==> edges[|edges| - 1] == lastEdge && lastButtonDebug == Config.ButtonLabel(lastEdge)
      {
        var cur := buttons[i];
        var prev := prevButtons[i];
        RisingEdgesStep(base, buttons, i);
        if cur && !prev {
          edges := edges + [i];
          lastButtonDebug := Config.ButtonLabel(i);
          lastEdge := i;
        }
        prevButtons := prevButtons[i := cur];
      }
      assert base[..nb] == base && buttons[..nb] == buttons;
      assert prevButtons == buttons;
    }
  }
}
