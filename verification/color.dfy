/** RGB and HSL colour values and the conversions between them, over exact
    real numbers. Both `src/colorRGB.js`/`src/colorHSL.js` and the older
    `src/color.js` compute the same formulas; they differ only in the field
    names (`r` versus `_r`) and in `color.js`'s coercing HSL constructor,
    which is `LegacyHSL` below. */
module Color {
  import opened Wrappers

  /** A colour with red, green, blue and alpha in the source's normalised form. */
  datatype RGB = RGB(r: real, g: real, b: real, a: real)

  /** Hue, saturation, lightness and alpha. Lightness is not clamped. */
  datatype HSL = HSL(h: real, s: real, l: real, a: real)

  /** The fully transparent black shared by every colouriser. */
  const TransparentColor: RGB := RGB(0.0, 0.0, 0.0, 0.0)

  predicate InUnit(x: real) { 0.0 <= x <= 1.0 }

  /** Every channel of the colour lies in [0, 1]. */
  predicate ValidRGB(c: RGB) {
    InUnit(c.r) && InUnit(c.g) && InUnit(c.b) && InUnit(c.a)
  }

  /** Hue in [0, 1), saturation and lightness in [0, 1]. */
  predicate ValidHSL(c: HSL) {
    0.0 <= c.h < 1.0 && InUnit(c.s) && InUnit(c.l)
  }

  function Max(x: real, y: real): real { if x >= y then x else y }
  function Min(x: real, y: real): real { if x <= y then x else y }

  function Max3(c: RGB): (m: real)
    ensures m >= c.r && m >= c.g && m >= c.b
    ensures m == c.r || m == c.g || m == c.b
  {
    Max(Max(c.r, c.g), c.b)
  }

  function Min3(c: RGB): (m: real)
    ensures m <= c.r && m <= c.g && m <= c.b
    ensures m == c.r || m == c.g || m == c.b
  {
    Min(Min(c.r, c.g), c.b)
  }

  /** The cache key of a colour: its four components (the source uses the
      string "r-g-b-a"). */
  datatype ColorKey = ColorKey(r: real, g: real, b: real, a: real)

  function Key(c: RGB): ColorKey {
    ColorKey(c.r, c.g, c.b, c.a)
  }

  function ColorOfKey(k: ColorKey): RGB {
    RGB(k.r, k.g, k.b, k.a)
  }

  /** Two colours share a key exactly when they are the same colour, and the
      key can be turned back into the colour. */
  lemma KeyIsInjective(c: RGB, d: RGB)
    ensures Key(c) == Key(d) <==> c == d
    ensures ColorOfKey(Key(c)) == c
  {
  }

  // ----- small facts about real division and products -----

  /** Scaling a non-negative number by a factor in [0, 1] keeps it between 0 and itself. */
  lemma ScaleBetween(x: real, k: real)
    requires 0.0 <= x && 0.0 <= k <= 1.0
    ensures 0.0 <= x * k <= x
  {
    assert 0.0 <= x * (1.0 - k);
    assert x * (1.0 - k) == x - x * k;
  }

  lemma QuotientBounds(x: real, d: real)
    requires d > 0.0 && -d <= x <= d
    ensures -1.0 <= x / d <= 1.0
  {
    assert (x / d) * d == x;
  }

  lemma QuotientUnit(x: real, d: real)
    requires d > 0.0 && 0.0 <= x <= d
    ensures 0.0 <= x / d <= 1.0
  {
    assert (x / d) * d == x;
  }

  /** A point p + (q - p)k with k in [0, 1] lies between p and q. */
  lemma Interpolate(p: real, q: real, k: real)
    requires 0.0 <= k <= 1.0
    ensures Min(p, q) <= p + (q - p) * k <= Max(p, q)
  {
    var d := q - p;
    var m := d * k;
    if d >= 0.0 {
      ScaleBetween(d, k);
      assert p <= p + m <= q;
    } else {
      ScaleBetween(-d, k);
      assert (-d) * k == -m;
      assert q <= p + m <= p;
    }
    assert m == (q - p) * k;
  }

  // ----- RGB to HSL -----

  /** The source's hue before the final division by 6: which formula is
      used is decided by the first of r, g, b that equals the maximum. */
  function HueSixths(c: RGB): real
    requires Max3(c) != Min3(c)
  {
    var mx := Max3(c);
    var d := mx - Min3(c);
    if mx == c.r then (c.g - c.b) / d + (if c.g < c.b then 6.0 else 0.0)
    else if mx == c.g then (c.b - c.r) / d + 2.0
    else (c.r - c.g) / d + 4.0
  }

  /** The hue lands in the colour wheel's sector of the channel that won
      the tie-break: red in [0, 1] or [5, 6), green in [1, 3], blue in [3, 5]. */
  lemma HueSector(c: RGB)
    requires Max3(c) != Min3(c)
    ensures 0.0 <= HueSixths(c) < 6.0
    ensures Max3(c) == c.r ==> HueSixths(c) <= 1.0 || 5.0 <= HueSixths(c)
    ensures Max3(c) != c.r && Max3(c) == c.g ==> 1.0 <= HueSixths(c) <= 3.0
    ensures Max3(c) != c.r && Max3(c) != c.g ==> 3.0 <= HueSixths(c) <= 5.0
  {
    var mx := Max3(c);
    var d := mx - Min3(c);
    if mx == c.r {
      QuotientBounds(c.g - c.b, d);
      if c.g < c.b {
        assert ((c.g - c.b) / d) * d == c.g - c.b;
      }
    } else if mx == c.g {
      QuotientBounds(c.b - c.r, d);
    } else {
      QuotientBounds(c.r - c.g, d);
    }
  }

  /** The saturation's denominator is non-zero (for channels in [0, 1] it
      always is; outside that range JavaScript would produce an infinity). */
  predicate SaturationDefined(mx: real, mn: real) {
    if (mx + mn) / 2.0 > 0.5 then 2.0 - mx - mn != 0.0 else mx + mn != 0.0
  }

  function Saturation(mx: real, mn: real): real
    requires mx > mn && SaturationDefined(mx, mn)
  {
    var d := mx - mn;
    var l := (mx + mn) / 2.0;
    if l > 0.5 then d / (2.0 - mx - mn) else d / (mx + mn)
  }

  /** The colours `getHSL` converts without dividing by zero. */
  predicate HSLDefined(c: RGB) {
    Max3(c) == Min3(c) || SaturationDefined(Max3(c), Min3(c))
  }

  /** Every colour with channels in [0, 1] is converted without dividing by zero. */
  lemma ValidIsHSLDefined(c: RGB)
    requires ValidRGB(c)
    ensures HSLDefined(c)
  {
  }

  /** `ColorRGB.getHSL`. */
  function GetHSL(c: RGB): (r: HSL)
    requires HSLDefined(c)
    ensures r.l == (Max3(c) + Min3(c)) / 2.0
    ensures r.a == 1.0
    ensures 0.0 <= r.h < 1.0
    ensures Max3(c) == Min3(c) ==> r.h == 0.0 && r.s == 0.0
    ensures Max3(c) != Min3(c) ==> r.h * 6.0 == HueSixths(c)
    ensures Max3(c) != Min3(c) && r.l > 0.5 ==> r.s * (2.0 - Max3(c) - Min3(c)) == Max3(c) - Min3(c)
    ensures Max3(c) != Min3(c) && r.l <= 0.5 ==> r.s * (Max3(c) + Min3(c)) == Max3(c) - Min3(c)
  {
    var mx := Max3(c);
    var mn := Min3(c);
    var l := (mx + mn) / 2.0;
    if mx == mn then HSL(0.0, 0.0, l, 1.0)
    else
      HueSector(c);
      HSL(HueSixths(c) / 6.0, Saturation(mx, mn), l, 1.0)
  }

  /** For a colour with channels in [0, 1] the HSL form is in range too:
      hue in [0, 1), saturation and lightness in [0, 1]. */
  lemma GetHSLInRange(c: RGB)
    requires ValidRGB(c)
    ensures HSLDefined(c) && ValidHSL(GetHSL(c))
  {
    var mx := Max3(c);
    var mn := Min3(c);
    if mx != mn {
      HueSector(c);
      var d := mx - mn;
      if (mx + mn) / 2.0 > 0.5 {
        QuotientUnit(d, 2.0 - mx - mn);
      } else {
        QuotientUnit(d, mx + mn);
      }
    }
  }

  // ----- HSL transforms -----

  /** `ColorHSL.darken`: lightness scaled by (1 - amount/100), alpha reset to 1. */
  function Darken(c: HSL, amount: real): (r: HSL)
    ensures r.h == c.h && r.s == c.s && r.a == 1.0
    ensures r.l == c.l - c.l * amount / 100.0
  {
    HSL(c.h, c.s, c.l * (1.0 - amount / 100.0), 1.0)
  }

  /** `ColorHSL.lighten`: lightness scaled by (1 + amount/100), alpha reset
      to 1; the result is not clamped. */
  function Lighten(c: HSL, amount: real): (r: HSL)
    ensures r.h == c.h && r.s == c.s && r.a == 1.0
    ensures r.l == c.l + c.l * amount / 100.0
  {
    HSL(c.h, c.s, c.l * (1.0 + amount / 100.0), 1.0)
  }

  /** For a non-negative lightness and a percentage in [0, 100], darkening
      never raises and lightening never lowers the lightness, and darkening
      keeps it non-negative. */
  lemma DarkenLightenMonotone(c: HSL, amount: real)
    requires c.l >= 0.0 && 0.0 <= amount <= 100.0
    ensures 0.0 <= Darken(c, amount).l <= c.l <= Lighten(c, amount).l
  {
    ScaleBetween(c.l, amount / 100.0);
    assert c.l * amount / 100.0 == c.l * (amount / 100.0);
  }

  /** Lightening is not clamped: a light grey lightened by 80 per cent
      leaves the unit range. */
  lemma LightenDoesNotClamp()
    ensures Lighten(HSL(0.0, 0.0, 0.8, 1.0), 80.0).l == 1.44
  {
  }

  // ----- HSL to RGB -----

  /** The single +-1 wrap of `hue2rgb`. */
  function WrapHue(t: real): (r: real)
    requires -1.0 <= t <= 2.0
    ensures 0.0 <= r <= 1.0
    ensures r == t || r == t + 1.0 || r == t - 1.0
  {
    var t1 := if t < 0.0 then t + 1.0 else t;
    if t1 > 1.0 then t1 - 1.0 else t1
  }

  /** `hue2rgb`: a channel value for the wrapped hue offset t. */
  function Hue2Rgb(p: real, q: real, t: real): (r: real)
    requires -1.0 <= t <= 2.0
    ensures Min(p, q) <= r <= Max(p, q)
  {
    var u := WrapHue(t);
    if u < 1.0 / 6.0 then
      Interpolate(p, q, 6.0 * u);
      p + (q - p) * (6.0 * u)
    else if u < 1.0 / 2.0 then q
    else if u < 2.0 / 3.0 then
      Interpolate(p, q, (2.0 / 3.0 - u) * 6.0);
      p + (q - p) * ((2.0 / 3.0 - u) * 6.0)
    else p
  }

  function UpperQ(c: HSL): real {
    if c.l < 0.5 then c.l * (1.0 + c.s) else c.l + c.s - c.l * c.s
  }

  /** `ColorHSL.getRGB`. */
  function GetRGB(c: HSL): (r: RGB)
    requires -2.0 / 3.0 <= c.h <= 5.0 / 3.0
    ensures r.a == 1.0
    ensures c.s == 0.0 ==> r.r == c.l && r.g == c.l && r.b == c.l
    ensures c.s != 0.0 ==>
      var q := UpperQ(c);
      var p := 2.0 * c.l - q;
      && Min(p, q) <= r.r <= Max(p, q)
      && Min(p, q) <= r.g <= Max(p, q)
      && Min(p, q) <= r.b <= Max(p, q)
  {
    if c.s == 0.0 then RGB(c.l, c.l, c.l, 1.0)
    else
      var q := UpperQ(c);
      var p := 2.0 * c.l - q;
      RGB(Hue2Rgb(p, q, c.h + 1.0 / 3.0), Hue2Rgb(p, q, c.h), Hue2Rgb(p, q, c.h - 1.0 / 3.0), 1.0)
  }

  /** For saturation and lightness in [0, 1] the two interpolation bounds
      p and q lie in [0, 1], centred on the lightness. */
  lemma BoundsInUnit(c: HSL)
    requires InUnit(c.s) && InUnit(c.l)
    ensures 0.0 <= 2.0 * c.l - UpperQ(c)
    ensures c.l <= UpperQ(c) <= 1.0
  {
    var l, sat := c.l, c.s;
    if l < 0.5 {
      ScaleBetween(l, sat);
      UpperBound(l, l * sat, UpperQ(c));
    } else {
      var d := 1.0 - l;
      ScaleBetween(d, sat);
      var x := d * sat;
      assert x == sat - l * sat;
      assert 0.0 <= x <= d;
      assert 0.5 <= l <= 1.0;
      UpperBound(l, x, UpperQ(c));
    }
  }

  lemma UpperBound(l: real, x: real, q: real)
    requires q == l + x && 0.0 <= x && (x <= l < 0.5 || (0.5 <= l <= 1.0 && x <= 1.0 - l))
    ensures 0.0 <= 2.0 * l - q && l <= q <= 1.0
  {
  }

  /** An in-range HSL colour converts to an in-range RGB colour. */
  lemma GetRGBInRange(c: HSL)
    requires ValidHSL(c)
    ensures ValidRGB(GetRGB(c))
  {
    if c.s != 0.0 {
      BoundsInUnit(c);
    }
  }

  /** The three channels read one curve at hues a third of a turn apart:
      turning the hue forward by a third moves red's value to green and
      green's to blue. */
  lemma HueRotation(c: HSL)
    requires -2.0 / 3.0 <= c.h <= 4.0 / 3.0
    ensures GetRGB(c.(h := c.h + 1.0 / 3.0)).g == GetRGB(c).r
    ensures GetRGB(c.(h := c.h + 1.0 / 3.0)).b == GetRGB(c).g
  {
    var d := c.(h := c.h + 1.0 / 3.0);
    assert UpperQ(d) == UpperQ(c);
    assert d.h - 1.0 / 3.0 == c.h;
  }

  /** The primaries: fully saturated mid-lightness colours at hue 0, 1/3
      and 2/3 are pure red, green and blue. */
  lemma Primaries()
    ensures GetRGB(HSL(0.0, 1.0, 0.5, 1.0)) == RGB(1.0, 0.0, 0.0, 1.0)
    ensures GetRGB(HSL(1.0 / 3.0, 1.0, 0.5, 1.0)) == RGB(0.0, 1.0, 0.0, 1.0)
    ensures GetRGB(HSL(2.0 / 3.0, 1.0, 0.5, 1.0)) == RGB(0.0, 0.0, 1.0, 1.0)
  {
  }

  /** `color.js`'s coercing constructor: a missing or zero hue, saturation or
      lightness becomes 0, and a missing or zero alpha becomes 1. */
  function LegacyHSL(h: Option<real>, s: Option<real>, l: Option<real>, a: Option<real>): (r: HSL)
    ensures r.a != 0.0
    ensures h.Some? ==> r.h == h.value
    ensures h.None? ==> r.h == 0.0
    ensures s.Some? ==> r.s == s.value
    ensures s.None? ==> r.s == 0.0
    ensures l.Some? ==> r.l == l.value
    ensures l.None? ==> r.l == 0.0
    ensures a.Some? && a.value != 0.0 ==> r.a == a.value
    ensures a.None? || a.value == 0.0 ==> r.a == 1.0
  {
    var av := a.GetOr(0.0);
    HSL(h.GetOr(0.0), s.GetOr(0.0), l.GetOr(0.0), if av == 0.0 then 1.0 else av)
  }

  /** `color.js`'s darken and lighten go through the coercing constructor
      with alpha 1, which changes nothing: they agree with `Darken` and
      `Lighten`. */
  lemma LegacyTransformsAgree(c: HSL, amount: real)
    ensures LegacyHSL(Some(c.h), Some(c.s), Some(c.l * (1.0 - amount / 100.0)), Some(1.0)) == Darken(c, amount)
    ensures LegacyHSL(Some(c.h), Some(c.s), Some(c.l * (1.0 + amount / 100.0)), Some(1.0)) == Lighten(c, amount)
  {
  }
}
