/** Colors and their contrast over real numbers: apps/docs/scripts/check-contracts.ts, `hslColor` to `contrastRatio`. */
module Color {
  datatype Rgba = Rgba(red: real, green: real, blue: real, alpha: real)

  function Min(a: real, b: real): real {
    if a <= b then a else b
  }

  function Max(a: real, b: real): real {
    if a >= b then a else b
  }

  // ---------------------------------------------------------------- hsl()

  /** `x % 12`, which has the sign of `x`. */
  function Mod12(x: real): (r: real)
    ensures x >= 0.0 ==> 0.0 <= r < 12.0
    ensures x < 0.0 ==> -12.0 < r <= 0.0
  {
    if x >= 0.0 then x - 12.0 * (x / 12.0).Floor as real else -(-x - 12.0 * (-x / 12.0).Floor as real)
  }

  /** How far a channel is from the lightness, from 1 (darkest) to -1. */
  function Weight(k: real): real {
    Max(-1.0, Min(Min(k - 3.0, 9.0 - k), 1.0))
  }

  /** How far the channels are from the lightness at most. */
  function Spread(saturation: real, lightness: real): real {
    saturation * Min(lightness, 1.0 - lightness)
  }

  function Off(lightness: real, spread: real, weight: real): real {
    lightness - spread * weight
  }

  function Channel(n: real, hue: real, saturation: real, lightness: real): real {
    Off(lightness, Spread(saturation, lightness), Weight(Mod12(n + hue / 30.0)))
  }

  /** The color for the numbers of an `hsl()` notation. */
  function HslColor(hue: real, saturation: real, lightness: real, alpha: real): Rgba {
    Rgba(Channel(0.0, hue, saturation, lightness), Channel(8.0, hue, saturation, lightness),
      Channel(4.0, hue, saturation, lightness), alpha)
  }

  /** A further turn by `n` twelfths. */
  lemma Turn(n: real, x: real)
    requires x >= 0.0 && 0.0 <= n < 12.0
    ensures var h := Mod12(x); Mod12(n + x) == if h + n < 12.0 then h + n else h + n - 12.0
  {
    var q := (x / 12.0).Floor;
    var h := Mod12(x);
    assert x == 12.0 * q as real + h;
    if h + n < 12.0 {
      assert ((n + x) / 12.0).Floor == q;
    } else {
      assert ((n + x) / 12.0).Floor == q + 1;
    }
  }

  /** The textbook form: chroma, and a table of six sectors of the color wheel. `h` counts half sectors. */
  function Sector(h: real, spread: real, lightness: real): (real, real, real) {
    var chroma := 2.0 * spread;
    var low, high := lightness - chroma / 2.0, lightness + chroma / 2.0;
    if h < 2.0 then (high, low + chroma * (h / 2.0), low)
    else if h < 4.0 then (low + chroma * (2.0 - h / 2.0), high, low)
    else if h < 6.0 then (low, high, low + chroma * (h / 2.0 - 2.0))
    else if h < 8.0 then (low, low + chroma * (4.0 - h / 2.0), high)
    else if h < 10.0 then (low + chroma * (h / 2.0 - 4.0), low, high)
    else (high, low, low + chroma * (6.0 - h / 2.0))
  }

  function Wrapped(x: real): real {
    if x < 12.0 then x else x - 12.0
  }

  /** The three channels, by where on the wheel they are. */
  lemma Channels(hue: real, saturation: real, lightness: real, alpha: real)
    requires hue >= 0.0
    ensures var c, h, spread :=
            HslColor(hue, saturation, lightness, alpha), Mod12(hue / 30.0), Spread(saturation, lightness);
            && c.red == Off(lightness, spread, Weight(Wrapped(h)))
            && c.green == Off(lightness, spread, Weight(Wrapped(h + 8.0)))
            && c.blue == Off(lightness, spread, Weight(Wrapped(h + 4.0)))
  {
    Turn(0.0, hue / 30.0);
    Turn(8.0, hue / 30.0);
    Turn(4.0, hue / 30.0);
    hide Mod12, Weight, Spread, Off;
  }

  lemma Part(lightness: real, spread: real, t: real)
    ensures lightness - spread + 2.0 * spread * t == Off(lightness, spread, 1.0 - 2.0 * t)
    ensures lightness - spread == Off(lightness, spread, 1.0) && lightness + spread == Off(lightness, spread, -1.0)
  {
  }

  /** The channel that is neither brightest nor darkest is this part of the way up. */
  function Way(h: real): real {
    if h < 2.0 then h / 2.0
    else if h < 4.0 then 2.0 - h / 2.0
    else if h < 6.0 then h / 2.0 - 2.0
    else if h < 8.0 then 4.0 - h / 2.0
    else if h < 10.0 then h / 2.0 - 4.0
    else 6.0 - h / 2.0
  }

  /** The weights are the table's entries: as bright as can be, as dark, or part of the way. */
  lemma WheelWeights(h: real)
    requires 0.0 <= h < 12.0
    ensures var way := 1.0 - 2.0 * Way(h);
            (Weight(Wrapped(h)), Weight(Wrapped(h + 8.0)), Weight(Wrapped(h + 4.0)))
            == if h < 2.0 then (-1.0, way, 1.0)
               else if h < 4.0 then (way, -1.0, 1.0)
               else if h < 6.0 then (1.0, -1.0, way)
               else if h < 8.0 then (1.0, way, -1.0)
               else if h < 10.0 then (way, 1.0, -1.0)
               else (-1.0, 1.0, way)
  {
  }

  lemma SectorIsWeights(h: real, spread: real, lightness: real)
    requires 0.0 <= h < 12.0
    ensures var (r, g, b) := Sector(h, spread, lightness);
            && r == Off(lightness, spread, Weight(Wrapped(h)))
            && g == Off(lightness, spread, Weight(Wrapped(h + 8.0)))
            && b == Off(lightness, spread, Weight(Wrapped(h + 4.0)))
  {
    Part(lightness, spread, Way(h));
    WheelWeights(h);
    hide Off, Weight, Wrapped;
  }

  /** The formula agrees with the table for every hue the notation can spell: it has no minus sign. */
  lemma HslIsSector(hue: real, saturation: real, lightness: real, alpha: real)
    requires hue >= 0.0
    ensures var c := HslColor(hue, saturation, lightness, alpha);
            (c.red, c.green, c.blue) == Sector(Mod12(hue / 30.0), Spread(saturation, lightness), lightness)
  {
    Channels(hue, saturation, lightness, alpha);
    SectorIsWeights(Mod12(hue / 30.0), Spread(saturation, lightness), lightness);
    hide *;
  }

  predicate InUnit(x: real) {
    0.0 <= x <= 1.0
  }

  predicate IsColor(c: Rgba) {
    InUnit(c.red) && InUnit(c.green) && InUnit(c.blue)
  }

  lemma Scale(a: real, b: real)
    requires a >= 0.0 && b >= 0.0
    ensures a * b >= 0.0
  {
  }

  lemma OffRange(lightness: real, spread: real, w: real)
    requires spread >= 0.0 && -1.0 <= w <= 1.0
    ensures lightness - spread <= Off(lightness, spread, w) <= lightness + spread
  {
    Scale(spread, 1.0 - w);
    Scale(spread, 1.0 + w);
    assert spread * (1.0 - w) == spread - spread * w && spread * (1.0 + w) == spread + spread * w;
  }

  /** Wherever the hue is, one channel is as bright as can be and another as dark. */
  lemma Extremes(h: real)
    requires 0.0 <= h < 12.0
    ensures var r, g, b := Weight(Wrapped(h)), Weight(Wrapped(h + 8.0)), Weight(Wrapped(h + 4.0));
            && -1.0 <= r <= 1.0 && -1.0 <= g <= 1.0 && -1.0 <= b <= 1.0
            && (r == -1.0 || g == -1.0 || b == -1.0) && (r == 1.0 || g == 1.0 || b == 1.0)
  {
  }

  lemma SpreadRange(saturation: real, lightness: real)
    requires InUnit(saturation) && InUnit(lightness)
    ensures 0.0 <= Spread(saturation, lightness) <= lightness && Spread(saturation, lightness) <= 1.0 - lightness
  {
    var least := Min(lightness, 1.0 - lightness);
    Scale(saturation, least);
    Scale(1.0 - saturation, least);
    assert (1.0 - saturation) * least == least - saturation * least;
  }

  /** Every channel is in range, the largest and the smallest as far from the lightness as each other. */
  lemma HslRange(hue: real, saturation: real, lightness: real, alpha: real)
    requires hue >= 0.0 && InUnit(saturation) && InUnit(lightness)
    ensures var c := HslColor(hue, saturation, lightness, alpha);
            && IsColor(c)
            && Max(c.red, Max(c.green, c.blue)) == lightness + saturation * Min(lightness, 1.0 - lightness)
            && Min(c.red, Min(c.green, c.blue)) == lightness - saturation * Min(lightness, 1.0 - lightness)
  {
    var h, spread := Mod12(hue / 30.0), Spread(saturation, lightness);
    var r, g, b := Weight(Wrapped(h)), Weight(Wrapped(h + 8.0)), Weight(Wrapped(h + 4.0));
    assert spread == saturation * Min(lightness, 1.0 - lightness);
    SpreadRange(saturation, lightness);
    Channels(hue, saturation, lightness, alpha);
    Extremes(h);
    OffRange(lightness, spread, r);
    OffRange(lightness, spread, g);
    OffRange(lightness, spread, b);
    Part(lightness, spread, 0.0);
    hide Mod12, Weight, Wrapped, Spread, Off, HslColor;
  }

  // ---------------------------------------------------------------- negative hues

  /** `x` turned to where it belongs on the wheel of twelve half sectors. */
  function Turned(x: real): (r: real)
    ensures 0.0 <= r < 12.0
  {
    x - 12.0 * (x / 12.0).Floor as real
  }

  lemma Remainder(y: real)
    ensures Mod12(y) == if y >= 0.0 || Turned(y) == 0.0 then Turned(y) else Turned(y) - 12.0
  {
    var q := (y / 12.0).Floor;
    if y < 0.0 {
      assert -y / 12.0 == -(q as real) - Turned(y) / 12.0;
      assert (-y / 12.0).Floor == if Turned(y) == 0.0 then -q else -q - 1;
    }
  }

  lemma TurnedMore(n: real, x: real)
    requires 0.0 <= n < 12.0
    ensures Turned(n + x) == Wrapped(Turned(x) + n)
  {
    var q := (x / 12.0).Floor;
    if Turned(x) + n < 12.0 {
      assert ((n + x) / 12.0).Floor == q;
    } else {
      assert ((n + x) / 12.0).Floor == q + 1;
    }
  }

  /** A negative remainder weighs as if the channel were to be as bright as can be. */
  lemma WeightAnywhere(n: real, x: real)
    requires 0.0 <= n < 12.0
    ensures Weight(Mod12(n + x)) == if n + x < 0.0 then -1.0 else Weight(Wrapped(Turned(x) + n))
  {
    Remainder(n + x);
    TurnedMore(n, x);
    hide Mod12, Turned, Wrapped;
  }

  /** The channels whose remainder is negative are as bright as can be anyway just down to two half sectors below 0. */
  lemma BrightAnyway(x: real)
    ensures var h := Turned(x);
            x >= -2.0 <==>
            && (x < 0.0 ==> Weight(Wrapped(h)) == -1.0)
            && (8.0 + x < 0.0 ==> Weight(Wrapped(h + 8.0)) == -1.0)
            && (4.0 + x < 0.0 ==> Weight(Wrapped(h + 4.0)) == -1.0)
  {
    var q := (x / 12.0).Floor;
    assert x == 12.0 * q as real + Turned(x);
    hide Turned;
  }

  lemma SameOff(lightness: real, spread: real, a: real, b: real)
    ensures Off(lightness, spread, a) == Off(lightness, spread, b) <==> spread == 0.0 || a == b
  {
    assert spread * a == spread * b ==> spread * (a - b) == 0.0;
    if a > b && spread != 0.0 {
      SignOfProduct(spread, a - b);
    } else if a < b && spread != 0.0 {
      SignOfProduct(spread, b - a);
    }
  }

  /**
   * The formula agrees with the table exactly for the hues from -60 degrees on, and for grays. Below, `%` gives some
   * channel a negative remainder where the wheel has it darker.
   */
  lemma HslIsSectorIff(hue: real, saturation: real, lightness: real, alpha: real)
    ensures var c, spread := HslColor(hue, saturation, lightness, alpha), Spread(saturation, lightness);
            ((c.red, c.green, c.blue) == Sector(Turned(hue / 30.0), spread, lightness)
             <==> hue >= -60.0 || spread == 0.0)
  {
    var x, spread := hue / 30.0, Spread(saturation, lightness);
    var h := Turned(x);
    SectorIsWeights(h, spread, lightness);
    WeightAnywhere(0.0, x);
    WeightAnywhere(8.0, x);
    WeightAnywhere(4.0, x);
    BrightAnyway(x);
    SameOff(lightness, spread, Weight(Mod12(0.0 + x)), Weight(Wrapped(h)));
    SameOff(lightness, spread, Weight(Mod12(8.0 + x)), Weight(Wrapped(h + 8.0)));
    SameOff(lightness, spread, Weight(Mod12(4.0 + x)), Weight(Wrapped(h + 4.0)));
    hide Mod12, Weight, Wrapped, Spread, Off, Turned, Sector;
  }

  /** One hue below: red, turned once around, would be read as white. */
  lemma NegativeHueIsWhite(hue: real)
    requires hue == -360.0
    ensures HslColor(hue, 1.0, 0.5, 1.0) == Rgba(1.0, 1.0, 1.0, 1.0)
    ensures Sector(Turned(hue / 30.0), Spread(1.0, 0.5), 0.5) == (1.0, 0.0, 0.0)
  {
    assert Spread(1.0, 0.5) == 0.5;
    assert Mod12(0.0 + hue / 30.0) == 0.0 && Mod12(4.0 + hue / 30.0) == -8.0 && Mod12(8.0 + hue / 30.0) == -4.0;
    assert Turned(hue / 30.0) == 0.0;
    hide Mod12, Spread, Turned;
  }

  // ---------------------------------------------------------------- painting over

  function Mix(color: real, ground: real, alpha: real): real {
    color * alpha + ground * (1.0 - alpha)
  }

  function Composite(color: Rgba, ground: Rgba): Rgba {
    Rgba(Mix(color.red, ground.red, color.alpha), Mix(color.green, ground.green, color.alpha),
      Mix(color.blue, ground.blue, color.alpha), 1.0)
  }

  lemma MixIsBetween(color: real, ground: real, alpha: real)
    requires InUnit(alpha)
    ensures Min(color, ground) <= Mix(color, ground, alpha) <= Max(color, ground)
  {
    if color <= ground {
      Scale(ground - color, alpha);
      Scale(ground - color, 1.0 - alpha);
    } else {
      Scale(color - ground, alpha);
      Scale(color - ground, 1.0 - alpha);
    }
  }

  /** What is painted is an opaque color between the two; an opaque color hides the ground. */
  lemma CompositeIsBetween(color: Rgba, ground: Rgba)
    requires IsColor(color) && IsColor(ground) && InUnit(color.alpha)
    ensures IsColor(Composite(color, ground)) && Composite(color, ground).alpha == 1.0
    ensures color.alpha == 1.0 ==> Composite(color, ground) == color
    ensures color.alpha == 0.0 && ground.alpha == 1.0 ==> Composite(color, ground) == ground
  {
    MixIsBetween(color.red, ground.red, color.alpha);
    MixIsBetween(color.green, ground.green, color.alpha);
    MixIsBetween(color.blue, ground.blue, color.alpha);
  }

  // ---------------------------------------------------------------- contrast

  /** `power` stands for raising to the power 2.4: it grows, and keeps 0 and 1. */
  ghost predicate IsPower(power: real -> real) {
    power(0.0) == 0.0 && power(1.0) == 1.0 && forall x, y :: 0.0 <= x <= y <= 1.0 ==> power(x) <= power(y)
  }

  function Linear(channel: real, power: real -> real): real {
    if channel <= 0.04045 then channel / 12.92 else power((channel + 0.055) / 1.055)
  }

  function Luminance(c: Rgba, power: real -> real): real {
    0.2126 * Linear(c.red, power) + 0.7152 * Linear(c.green, power) + 0.0722 * Linear(c.blue, power)
  }

  function ContrastRatio(first: Rgba, second: Rgba, power: real -> real): real
    requires Max(Luminance(first, power), Luminance(second, power)) >= 0.0
    requires Min(Luminance(first, power), Luminance(second, power)) >= 0.0
  {
    var a, b := Luminance(first, power), Luminance(second, power);
    (Max(a, b) + 0.05) / (Min(a, b) + 0.05)
  }

  lemma LinearRange(channel: real, power: real -> real)
    requires IsPower(power) && InUnit(channel)
    ensures InUnit(Linear(channel, power))
    ensures channel == 0.0 ==> Linear(channel, power) == 0.0
    ensures channel == 1.0 ==> Linear(channel, power) == 1.0
  {
    if channel > 0.04045 {
      var x := (channel + 0.055) / 1.055;
      assert 0.0 <= x <= 1.0;
      assert power(0.0) <= power(x) <= power(1.0);
      assert channel == 1.0 ==> x == 1.0;
    }
  }

  lemma LuminanceRange(c: Rgba, power: real -> real)
    requires IsPower(power) && IsColor(c)
    ensures InUnit(Luminance(c, power))
    ensures c.red == c.green == c.blue == 0.0 ==> Luminance(c, power) == 0.0
    ensures c.red == c.green == c.blue == 1.0 ==> Luminance(c, power) == 1.0
  {
    LinearRange(c.red, power);
    LinearRange(c.green, power);
    LinearRange(c.blue, power);
    hide Linear, IsPower;
  }

  lemma RatioRange(low: real, high: real)
    requires 0.0 <= low <= high <= 1.0
    ensures 1.0 <= (high + 0.05) / (low + 0.05) <= 21.0
    ensures (high + 0.05) / (low + 0.05) == 1.0 <==> low == high
    ensures (high + 0.05) / (low + 0.05) == 21.0 <==> low == 0.0 && high == 1.0
  {
    var d := low + 0.05;
    Quotient(high + 0.05, d, (high + 0.05) / d);
  }

  lemma Quotient(n: real, d: real, r: real)
    requires 0.05 <= d <= n <= 1.05 && r == n / d
    ensures 1.0 <= r <= 21.0 && (r == 1.0 <==> n == d) && (r == 21.0 <==> d == 0.05 && n == 1.05)
  {
    assert r * d == n;
    assert (r - 1.0) * d == n - d && (21.0 - r) * d == 21.0 * d - n;
    SignOfProduct(r - 1.0, d);
    SignOfProduct(21.0 - r, d);
  }

  lemma SignOfProduct(a: real, b: real)
    requires b > 0.0
    ensures (a > 0.0 <==> a * b > 0.0) && (a == 0.0 <==> a * b == 0.0)
  {
    if a < 0.0 {
      assert (-a) * b > 0.0;
    }
  }

  /** The ratio does not depend on the order, is 1 for equal luminances alone, and 21 for black and white alone. */
  lemma ContrastRange(first: Rgba, second: Rgba, power: real -> real)
    requires IsPower(power) && IsColor(first) && IsColor(second)
    ensures InUnit(Luminance(first, power)) && InUnit(Luminance(second, power))
    ensures 1.0 <= ContrastRatio(first, second, power) <= 21.0
    ensures ContrastRatio(first, second, power) == ContrastRatio(second, first, power)
    ensures ContrastRatio(first, second, power) == 1.0 <==> Luminance(first, power) == Luminance(second, power)
    ensures ContrastRatio(first, second, power) == 21.0 <==>
              Min(Luminance(first, power), Luminance(second, power)) == 0.0
                && Max(Luminance(first, power), Luminance(second, power)) == 1.0
  {
    LuminanceRange(first, power);
    LuminanceRange(second, power);
    hide Luminance, IsPower;
    var a, b := Luminance(first, power), Luminance(second, power);
    RatioRange(Min(a, b), Max(a, b));
  }

  /** What the check compares with its minimum is a ratio from 1 to 21, whatever the theme's colors. */
  lemma CheckedContrast(
    hue: real, saturation: real, lightness: real, alpha: real, groundHue: real, groundSaturation: real,
    groundLightness: real,
    power: real -> real)
    requires IsPower(power) && hue >= 0.0 && InUnit(saturation) && InUnit(lightness) && InUnit(alpha)
    requires groundHue >= 0.0 && InUnit(groundSaturation) && InUnit(groundLightness)
    ensures var ground := HslColor(groundHue, groundSaturation, groundLightness, 1.0);
            var painted := Composite(HslColor(hue, saturation, lightness, alpha), ground);
            && InUnit(Luminance(painted, power)) && InUnit(Luminance(ground, power))
            && 1.0 <= ContrastRatio(painted, ground, power) <= 21.0
  {
    HslRange(hue, saturation, lightness, alpha);
    HslRange(groundHue, groundSaturation, groundLightness, 1.0);
    var color, ground :=
      HslColor(hue, saturation, lightness, alpha), HslColor(groundHue, groundSaturation, groundLightness, 1.0);
    assert color.alpha == alpha;
    hide *;
    CompositeIsBetween(color, ground);
    ContrastRange(Composite(color, ground), ground, power);
  }
}
