/**
 * The constants of `config.py` the simulation, the loop and the widgets read, and the
 * button colour/label lookup used for the blink colour and the HUD.
 */
module Config {
  import opened Wrappers
  import opened Util
  import Text

  const CanvasMargin: int := 12

  /** The global interface scale the widgets multiply their pixel sizes by. */
  const UiScale: real := 1.0

  const BallRadius: int := 14
  const BallSpeedPxS: real := 700.0
  const GlowDurationS: real := 0.5

  const TargetSizePctDefault: int := 165
  const TargetSizePctMin: int := 120
  const TargetSizePctMax: int := 500

  const TargetSpeedPxSDefault: int := 170
  const TargetSpeedPxSMin: int := 60
  const TargetSpeedPxSMax: int := 420

  const TargetFlashDurationS: real := 0.35

  const EngineFpsMin: int := 10
  const EngineFpsMax: int := 360

  /** 0 means "uncapped". */
  const VisualFpsMin: int := 0
  const VisualFpsMax: int := 360

  const SnapPoints: seq<int> := [24, 30, 40, 60, 120, 144, 210, 300]

  const DefaultEngineFps: int := 120
  const DefaultVisualFps: int := 60

  const DefaultDeadzoneRelaxation: bool := true
  const RelaxedDeadzone: real := 0.16
  const UnrelaxedDeadzone: real := 0.0

  const BallBaseColor: Rgb := Rgb(235, 235, 235)

  /** Fixed colours for the first eighteen button indices. */
  const ButtonColors: map<int, Rgb> := map[
    0 := Rgb(80, 160, 255),
    1 := Rgb(255, 90, 90),
    2 := Rgb(255, 110, 255),
    3 := Rgb(120, 255, 130),
    4 := Rgb(180, 200, 255),
    5 := Rgb(90, 255, 255),
    6 := Rgb(255, 210, 90),
    15 := Rgb(200, 190, 255),
    7 := Rgb(185, 135, 255),
    8 := Rgb(125, 255, 225),
    9 := Rgb(255, 150, 80),
    10 := Rgb(220, 255, 90),
    16 := Rgb(255, 120, 190),
    17 := Rgb(120, 190, 255),
    11 := Rgb(130, 175, 255),
    12 := Rgb(255, 130, 175),
    13 := Rgb(175, 255, 130),
    14 := Rgb(255, 175, 130)
  ]

  /** The cyclic palette for every index outside `ButtonColors`. */
  const ButtonColorPalette: seq<Rgb> := [
    Rgb(80, 160, 255),
    Rgb(255, 90, 90),
    Rgb(255, 110, 255),
    Rgb(120, 255, 130),
    Rgb(255, 210, 90),
    Rgb(90, 255, 255),
    Rgb(255, 150, 80),
    Rgb(220, 255, 90),
    Rgb(185, 135, 255),
    Rgb(125, 255, 225),
    Rgb(180, 200, 255),
    Rgb(200, 190, 255),
    Rgb(255, 130, 175),
    Rgb(130, 175, 255),
    Rgb(175, 255, 130),
    Rgb(255, 175, 130)
  ]

  /** The fixed table covers exactly the indices 0 to 17. */
  lemma ButtonColorKeys(i: int)
    ensures i in ButtonColors <==> 0 <= i < 18
  {
  }

  /**
   * `get_button_color`: indices 0..17 take their table colour, every other index (negative
   * ones included) the palette entry at `i mod 16`; the white fallback is never reached.
   */
  function ButtonColor(i: int): (c: Rgb)
    ensures 0 <= i < 18 ==> c == ButtonColors[i]
    ensures (i < 0 || 18 <= i) ==> c == ButtonColorPalette[i % 16]
    ensures c != BallBaseColor
  {
    ButtonColorKeys(i);
    if i in ButtonColors then ButtonColors[i]
    else if |ButtonColorPalette| > 0 then ButtonColorPalette[i % |ButtonColorPalette|]
    else BallBaseColor
  }

  /** `get_button_label`: the text "button " followed by the decimal index. */
  function ButtonLabel(i: int): string {
    "button " + Text.Decimal(i)
  }

  /** A button label starts with "button " and the rest reads back as the index. */
  lemma ButtonLabelReadsBack(i: int)
    ensures |ButtonLabel(i)| > 7 && ButtonLabel(i)[..7] == "button "
    ensures Text.ParseInt(ButtonLabel(i)[7..]) == Some(i)
  {
    Text.ParseDecimal(i);
    assert ButtonLabel(i)[7..] == Text.Decimal(i);
  }

  /** Every default lies within its own slider range. */
  lemma DefaultsInRange()
    ensures TargetSizePctMin <= TargetSizePctDefault <= TargetSizePctMax
    ensures TargetSpeedPxSMin <= TargetSpeedPxSDefault <= TargetSpeedPxSMax
    ensures EngineFpsMin <= DefaultEngineFps <= EngineFpsMax
    ensures VisualFpsMin <= DefaultVisualFps <= VisualFpsMax
  {
  }
}
