/** The sRGB curve and the luminance of colors: apps/docs/scripts/check-contracts.ts:277-294, over real numbers. */
module ColorLaws {
  import opened Color

  // ---------------------------------------------------------------- raising to the power 2.4

  function Pow(x: real, n: nat): real {
    if n == 0 then 1.0 else x * Pow(x, n - 1)
  }

  /** `x ** 2.4`: the fifth power of it is the twelfth power of `x`. */
  ghost predicate IsPower24(power: real -> real) {
    forall x :: 0.0 <= x ==> 0.0 <= power(x) && Pow(power(x), 5) == Pow(x, 12)
  }

  lemma Product(a: real, b: real, c: real, d: real)
    requires 0.0 <= a < b && 0.0 <= c <= d && 0.0 < d
    ensures 0.0 <= a * c < b * d
  {
    assert a * c <= a * d by {
      assert a * (d - c) >= 0.0;
    }
    assert (b - a) * d > 0.0;
  }

  lemma {:induction false} PowGrows(a: real, b: real, n: nat)
    requires 0.0 <= a < b
    ensures 0.0 <= Pow(a, n) <= Pow(b, n) && 0.0 < Pow(b, n)
    ensures n > 0 ==> Pow(a, n) < Pow(b, n)
  {
    if n > 0 {
      PowGrows(a, b, n - 1);
      Product(a, b, Pow(a, n - 1), Pow(b, n - 1));
    }
  }

  lemma PowReflects(a: real, b: real, n: nat)
    requires 0.0 <= a && 0.0 <= b && n > 0 && Pow(a, n) < Pow(b, n)
    ensures a < b
  {
    if b < a {
      PowGrows(b, a, n);
    }
  }

  lemma PowerGrows(power: real -> real, x: real, y: real)
    requires IsPower24(power) && 0.0 <= x < y
    ensures power(x) < power(y)
  {
    PowGrows(x, y, 12);
    PowReflects(power(x), power(y), 5);
    hide Pow;
  }

  lemma {:induction false} PowOfEnds(n: nat)
    ensures Pow(1.0, n) == 1.0 && (n > 0 ==> Pow(0.0, n) == 0.0)
  {
    if n > 0 {
      PowOfEnds(n - 1);
    }
  }

  lemma PowerOfEnds(power: real -> real)
    requires IsPower24(power)
    ensures power(0.0) == 0.0 && power(1.0) == 1.0
  {
    PowOfEnds(5);
    PowOfEnds(12);
    assert 0.0 <= power(0.0) && Pow(power(0.0), 5) == Pow(0.0, 12);
    assert 0.0 <= power(1.0) && Pow(power(1.0), 5) == Pow(1.0, 12);
    if power(0.0) > 0.0 {
      PowGrows(0.0, power(0.0), 5);
    }
    if power(1.0) > 1.0 {
      PowGrows(1.0, power(1.0), 5);
    } else if power(1.0) < 1.0 {
      PowGrows(power(1.0), 1.0, 5);
    }
    hide Pow;
  }

  /** So it is one of the functions the contrast laws are about. */
  lemma Power24IsPower(power: real -> real)
    requires IsPower24(power)
    ensures IsPower(power)
  {
    PowerOfEnds(power);
    forall x, y | 0.0 <= x <= y <= 1.0
      ensures power(x) <= power(y)
    {
      if x < y {
        PowerGrows(power, x, y);
      }
    }
    hide IsPower24;
  }

  // ---------------------------------------------------------------- the curve

  const JOIN: real := 0.04045

  lemma PowStep(x: real, n: nat)
    ensures Pow(x, 0) == 1.0 && Pow(x, n + 1) == x * Pow(x, n)
  {
  }

  lemma Pow4Steps(x: real, n: nat, y: real)
    requires Pow(x, n) == y
    ensures Pow(x, n + 4) == x * (x * (x * (x * y)))
  {
    PowStep(x, n);
    PowStep(x, n + 1);
    PowStep(x, n + 2);
    PowStep(x, n + 3);
    hide Pow;
  }

  /** Where the line meets the power: the line is just below. */
  lemma JoinIsClose(line: real, base: real)
    requires line == JOIN / 12.92 && base == (JOIN + 0.055) / 1.055
    ensures Pow(line, 5) < Pow(base, 12) < Pow(line + 0.00000001, 5)
  {
    hide Pow;
    PowStep(line, 4);
    PowStep(line + 0.00000001, 4);
    PowStep(base, 0);
    Pow4Steps(line, 0, 1.0);
    Pow4Steps(line + 0.00000001, 0, 1.0);
    var fourth := base * (base * (base * base));
    var eighth := base * (base * (base * (base * fourth)));
    Pow4Steps(base, 0, 1.0);
    Pow4Steps(base, 4, fourth);
    Pow4Steps(base, 8, eighth);
  }

  lemma JoinOf(power: real -> real)
    requires IsPower24(power)
    ensures JOIN / 12.92 < power((JOIN + 0.055) / 1.055) < JOIN / 12.92 + 0.00000001
  {
    var line, base := JOIN / 12.92, (JOIN + 0.055) / 1.055;
    JoinIsClose(line, base);
    assert 0.0 <= power(base) && Pow(power(base), 5) == Pow(base, 12);
    PowReflects(line, power(base), 5);
    PowReflects(power(base), line + 0.00000001, 5);
    hide Pow;
  }

  /**
   * The two pieces of the curve fit: it grows throughout, and its step where they meet is under a hundred millionth.
   */
  lemma CurveGrows(power: real -> real, x: real, y: real)
    requires IsPower24(power) && 0.0 <= x < y <= 1.0
    ensures 0.0 <= Linear(x, power) < Linear(y, power) <= 1.0
    ensures Linear(JOIN, power) < power((JOIN + 0.055) / 1.055) < Linear(JOIN, power) + 0.00000001
  {
    Power24IsPower(power);
    LinearRange(x, power);
    LinearRange(y, power);
    JoinOf(power);
    var u, v, base := (x + 0.055) / 1.055, (y + 0.055) / 1.055, (JOIN + 0.055) / 1.055;
    if y > JOIN {
      PowerGrows(power, base, v);
    }
    if x > JOIN {
      PowerGrows(power, u, v);
    }
    hide IsPower24, IsPower;
  }

  // ---------------------------------------------------------------- luminance

  /** The share of each primary, and that a gray has the luminance of its channel alone. */
  lemma Primaries(power: real -> real, gray: real, alpha: real)
    requires IsPower(power)
    ensures Luminance(Rgba(1.0, 0.0, 0.0, alpha), power) == 0.2126
    ensures Luminance(Rgba(0.0, 1.0, 0.0, alpha), power) == 0.7152
    ensures Luminance(Rgba(0.0, 0.0, 1.0, alpha), power) == 0.0722
    ensures Luminance(Rgba(gray, gray, gray, alpha), power) == Linear(gray, power)
  {
  }

  /** A channel's part of the luminance does not depend on the others. */
  lemma ChannelsAdd(power: real -> real, c: Rgba)
    requires IsPower(power)
    ensures Luminance(c, power)
         == Luminance(Rgba(c.red, 0.0, 0.0, 1.0), power) + Luminance(Rgba(0.0, c.green, 0.0, 1.0), power)
            + Luminance(Rgba(0.0, 0.0, c.blue, 1.0), power)
  {
    assert Linear(0.0, power) == 0.0;
    hide Linear, IsPower;
  }

  // ---------------------------------------------------------------- painting over

  /** Painting moves each channel from the ground towards the color by the same part of the way, `alpha`. */
  lemma PaintMoves(color: Rgba, ground: Rgba)
    ensures var painted := Composite(color, ground);
            && painted.red - ground.red == color.alpha * (color.red - ground.red)
            && painted.green - ground.green == color.alpha * (color.green - ground.green)
            && painted.blue - ground.blue == color.alpha * (color.blue - ground.blue)
  {
  }

  /** Painting the same color twice leaves of the ground the product of what each time leaves of it. */
  lemma PaintTwice(color: Rgba, ground: Rgba, first: real, second: real, both: real)
    requires 1.0 - both == (1.0 - first) * (1.0 - second)
    ensures Composite(color.(alpha := second), Composite(color.(alpha := first), ground))
         == Composite(color.(alpha := both), ground)
  {
    Twice(color.red, ground.red, first, second, both);
    Twice(color.green, ground.green, first, second, both);
    Twice(color.blue, ground.blue, first, second, both);
    hide Mix;
  }

  lemma Towards(color: real, ground: real, alpha: real, left: real)
    requires left == 1.0 - alpha
    ensures Mix(color, ground, alpha) == color + left * (ground - color)
  {
  }

  lemma Twice(color: real, ground: real, first: real, second: real, both: real)
    requires 1.0 - both == (1.0 - first) * (1.0 - second)
    ensures Mix(color, Mix(color, ground, first), second) == Mix(color, ground, both)
  {
    var painted := Mix(color, ground, first);
    Towards(color, ground, first, 1.0 - first);
    Towards(color, painted, second, 1.0 - second);
    Towards(color, ground, both, 1.0 - both);
    hide *;
    SameWay(1.0 - second, 1.0 - first, ground - color, 1.0 - both, painted - color);
  }

  lemma SameWay(a: real, b: real, c: real, ba: real, bc: real)
    requires ba == b * a && bc == b * c
    ensures a * bc == ba * c
  {
    assert a * (b * c) == (b * a) * c;
  }
}
