/**
 * The resolution choices of `video.py`: the preset table, the dropdown items built from it (in
 * fullscreen only the presets the display reports as modes), and the windowed-size guard.
 * Asking the display for its modes is outside the model: the answer is a parameter, `None`
 * when the display could not tell.
 */
module Video {
  import opened Wrappers
  import Text

  /** `ResolutionPreset`: a size and the aspect it is listed under. */
  datatype ResolutionPreset = ResolutionPreset(w: int, h: int, aspect: string)
  {
    /** `label`: "W×H (aspect)". */
    function Label(): string {
      Text.Decimal(w) + "×" + Text.Decimal(h) + " (" + aspect + ")"
    }

    /** `as_tuple`. */
    function AsTuple(): (int, int) {
      (w, h)
    }
  }

  /** A label names its preset: it starts with the width, then '×', and the width reads back. */
  lemma LabelNamesWidth(p: ResolutionPreset)
    ensures |Text.Decimal(p.w)| < |p.Label()|
    ensures p.Label()[|Text.Decimal(p.w)|] == '×'
    ensures Text.ParseInt(p.Label()[..|Text.Decimal(p.w)|]) == Some(p.w)
  {
    var d := Text.Decimal(p.w);
    assert p.Label()[..|d|] == d;
    Text.ParseDecimal(p.w);
  }

  /** A dropdown item: the label shown and the size chosen. */
  datatype Item = Item(text: string, size: (int, int))

  /** `default_presets`: four 4:3, five 16:9 and three 21:9 sizes, in that order. */
  function DefaultPresets(): (ps: seq<ResolutionPreset>)
    ensures |ps| == 12
  {
    [ ResolutionPreset(800, 600, "4:3"),
      ResolutionPreset(1024, 768, "4:3"),
      ResolutionPreset(1280, 960, "4:3"),
      ResolutionPreset(1600, 1200, "4:3"),
      ResolutionPreset(1280, 720, "16:9"),
      ResolutionPreset(1600, 900, "16:9"),
      ResolutionPreset(1920, 1080, "16:9"),
      ResolutionPreset(2560, 1440, "16:9"),
      ResolutionPreset(3840, 2160, "16:9"),
      ResolutionPreset(2560, 1080, "21:9"),
      ResolutionPreset(3440, 1440, "21:9"),
      ResolutionPreset(3840, 1600, "21:9") ]
  }

  /** Every preset is a proper size and no size is listed twice. */
  lemma DefaultPresetsDistinct()
    ensures forall i :: 0 <= i < |DefaultPresets()| ==> DefaultPresets()[i].w >= 1 && DefaultPresets()[i].h >= 1
    ensures forall i, j :: 0 <= i < j < |DefaultPresets()| ==> DefaultPresets()[i].AsTuple() != DefaultPresets()[j].AsTuple()
  {
  }

  /** `[p for p in presets if p.as_tuple() in modes]`. */
  function Kept(presets: seq<ResolutionPreset>, modes: set<(int, int)>): seq<ResolutionPreset>
  {
    if presets == [] then []
    else
      var n := |presets| - 1;
      Kept(presets[..n], modes) + (if presets[n].AsTuple() in modes then [presets[n]] else [])
  }

  /** A preset is kept exactly when it is listed and its size is a mode; never more presets than given. */
  lemma {:induction false} KeptSpec(presets: seq<ResolutionPreset>, modes: set<(int, int)>)
    ensures forall p :: p in Kept(presets, modes) <==> p in presets && p.AsTuple() in modes
    ensures |Kept(presets, modes)| <= |presets|
  {
    if presets != [] {
      var n := |presets| - 1;
      KeptSpec(presets[..n], modes);
      assert presets == presets[..n] + [presets[n]];
    }
  }

  /** The filter keeps the order: filtering two lists one after the other is filtering their concatenation. */
  lemma {:induction false} KeptConcat(a: seq<ResolutionPreset>, b: seq<ResolutionPreset>, modes: set<(int, int)>)
    ensures Kept(a + b, modes) == Kept(a, modes) + Kept(b, modes)
  {
    if b != [] {
      var n := |b| - 1;
      KeptConcat(a, b[..n], modes);
      assert (a + b)[..|a + b| - 1] == a + b[..n];
    } else {
      assert a + b == a;
    }
  }

  /** When every size is a mode the filter keeps the whole list. */
  lemma {:induction false} KeptAll(presets: seq<ResolutionPreset>, modes: set<(int, int)>)
    requires forall i :: 0 <= i < |presets| ==> presets[i].AsTuple() in modes
    ensures Kept(presets, modes) == presets
  {
    if presets != [] {
      var n := |presets| - 1;
      KeptAll(presets[..n], modes);
      assert presets == presets[..n] + [presets[n]];
    }
  }

  /** The presets offered: all of them in a window or when the modes are unknown, else those that are modes. */
  function Offered(fullscreen: bool, modes: Option<set<(int, int)>>): (r: seq<ResolutionPreset>)
    ensures |r| <= |DefaultPresets()|
    ensures forall p :: p in r ==> p in DefaultPresets()
    ensures fullscreen && modes.Some? ==> forall p :: p in r ==> p.AsTuple() in modes.value
  {
    if fullscreen && modes.Some? then
      KeptSpec(DefaultPresets(), modes.value);
      Kept(DefaultPresets(), modes.value)
    else DefaultPresets()
  }

  /**
   * `build_resolution_items`, with `modes` the answer of `available_fullscreen_modes`: one item
   * per offered preset, in preset order, labelled with its label and carrying its size.
   */
  method BuildResolutionItems(fullscreen: bool, modes: Option<set<(int, int)>>) returns (items: seq<Item>)
    ensures var ps := Offered(fullscreen, modes);
            && |items| == |ps|
            && forall k :: 0 <= k < |ps| ==> items[k] == Item(ps[k].Label(), ps[k].AsTuple())
  {
    var presets := Offered(fullscreen, modes);
    items := ItemsOf(presets);
  }

  /** The item loop of `build_resolution_items`: each preset's label and size, in order. */
  method ItemsOf(presets: seq<ResolutionPreset>) returns (items: seq<Item>)
    ensures |items| == |presets|
    ensures forall k :: 0 <= k < |presets| ==> items[k] == Item(presets[k].Label(), presets[k].AsTuple())
  {
    items := [];
    for i := 0 to |presets|
      invariant |items| == i
      invariant forall k :: 0 <= k < i ==> items[k] == Item(presets[k].Label(), presets[k].AsTuple())
    {
      items := items + [Item(presets[i].Label(), presets[i].AsTuple())];
    }
  }

  /** In a window, or when the display cannot tell its modes, all twelve presets are offered in order. */
  lemma OfferedAll(fullscreen: bool, modes: Option<set<(int, int)>>)
    requires !fullscreen || modes.None?
    ensures Offered(fullscreen, modes) == DefaultPresets()
    ensures |Offered(fullscreen, modes)| == 12
  {
  }

  /** In fullscreen with known modes, a preset is offered exactly when its size is one of them. */
  lemma OfferedFullscreen(modes: set<(int, int)>, p: ResolutionPreset)
    ensures p in Offered(true, Some(modes)) <==> p in DefaultPresets() && p.AsTuple() in modes
  {
    KeptSpec(DefaultPresets(), modes);
  }

  /** `normalize_windowed_size`: each side raised to at least 1, and nothing else changed. */
  function NormalizeWindowedSize(size: (int, int)): (r: (int, int))
    ensures r.0 >= 1 && r.1 >= 1
    ensures size.0 >= 1 ==> r.0 == size.0
    ensures size.1 >= 1 ==> r.1 == size.1
    ensures size.0 < 1 ==> r.0 == 1
    ensures size.1 < 1 ==> r.1 == 1
  {
    (if size.0 >= 1 then size.0 else 1, if size.1 >= 1 then size.1 else 1)
  }

  /** Normalising twice is normalising once. */
  lemma NormalizeIdempotent(size: (int, int))
    ensures NormalizeWindowedSize(NormalizeWindowedSize(size)) == NormalizeWindowedSize(size)
  {
  }
}
