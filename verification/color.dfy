/**
 * The colour model of the engine: conversion of one 8-bit RGB pixel to the
 * 8-bit HSV convention of OpenCV (hue halved to 0..180, saturation and value
 * scaled to 0..255).
 *
 * The source computes in single-precision floats; this model computes over
 * exact reals and writes out the two float operations whose semantics matter:
 * the saturating, truncating cast `as u8` and the float remainder `%`.
 */
module Color {

  /** An unsigned 8-bit channel. */
  type Byte = n: int | 0 <= n < 256

  datatype Rgb = Rgb(r: Byte, g: Byte, b: Byte)

  /** An HSV triple in OpenCV's 8-bit convention; also the shape of the detection window bounds. */
  datatype Hsv = Hsv(h: Byte, s: Byte, v: Byte)

  function RealMax(a: real, b: real): real { if a >= b then a else b }

  function RealMin(a: real, b: real): real { if a <= b then a else b }

  function Max3(a: int, b: int, c: int): int { if a >= b && a >= c then a else if b >= c then b else c }

  function Min3(a: int, b: int, c: int): int { if a <= b && a <= c then a else if b <= c then b else c }

  /** Truncation toward zero, as a float-to-integer cast performs it. */
  function Trunc(x: real): (n: int)
    ensures x >= 0.0 ==> n as real <= x < n as real + 1.0
    ensures x < 0.0 ==> n as real - 1.0 < x <= n as real
  {
    if x >= 0.0 then x.Floor else -((-x).Floor)
  }

  /** The float remainder `x % m`: the result has the sign of `x`. */
  function FMod(x: real, m: real): (r: real)
    requires m > 0.0
    ensures x >= 0.0 ==> 0.0 <= r < m
    ensures x < 0.0 ==> -m < r <= 0.0
    ensures ((x - r) / m).Floor as real == (x - r) / m
  {
    var t := Trunc(x / m) as real;
    assert (x - (x - m * t)) / m == t;
    if x >= 0.0 then
      QuotientBounds(x, m, t, t + 1.0);
      x - m * t
    else
      QuotientBounds(x, m, t - 1.0, t);
      x - m * t
  }

  /** Multiplying a quotient's bounds by its positive divisor bounds the dividend. */
  lemma QuotientBounds(x: real, m: real, lo: real, hi: real)
    requires m > 0.0 && lo <= x / m <= hi
    ensures m * lo <= x <= m * hi
    ensures x / m < hi ==> x < m * hi
    ensures lo < x / m ==> m * lo < x
  {
    var q := x / m;
    assert m * q == x;
  }

  /**
   * The cast `x as u8` of a float: truncation toward zero, saturating at 0
   * and at 255.
   */
  function CastU8(x: real): (n: Byte)
    ensures x < 0.0 ==> n == 0
    ensures 0.0 <= x < 256.0 ==> n == x.Floor
    ensures x >= 256.0 ==> n == 255
  {
    if x < 0.0 then 0 else if x >= 255.0 then 255 else x.Floor
  }

  /** A channel normalised to [0, 1]. */
  function Unit(c: Byte): real { c as real / 255.0 }

  /** Hue formula used when red is the largest channel (before the negative wrap). */
  function RedSector(p: Rgb, delta: real): real
    requires delta > 0.0
  {
    60.0 * FMod((Unit(p.g) - Unit(p.b)) / delta, 6.0)
  }

  /** Hue formula used when green is the largest channel. */
  function GreenSector(p: Rgb, delta: real): real
    requires delta > 0.0
  {
    60.0 * ((Unit(p.b) - Unit(p.r)) / delta + 2.0)
  }

  /** Hue formula used when blue is the largest channel. */
  function BlueSector(p: Rgb, delta: real): real
    requires delta > 0.0
  {
    60.0 * ((Unit(p.r) - Unit(p.g)) / delta + 4.0)
  }

  /** Adds a full turn to a negative hue. */
  function Wrap(h: real): real { if h < 0.0 then h + 360.0 else h }

  /**
   * The hue in degrees: zero for a grey pixel; otherwise chosen by which
   * channel attains the maximum, red first, then green, then blue.
   */
  function HueDegrees(p: Rgb): real
  {
    var rf, gf, bf := Unit(p.r), Unit(p.g), Unit(p.b);
    var mx := RealMax(rf, RealMax(gf, bf));
    var mn := RealMin(rf, RealMin(gf, bf));
    var delta := mx - mn;
    if delta > 0.0 then
      Wrap(if mx == rf then RedSector(p, delta)
           else if mx == gf then GreenSector(p, delta)
           else if mx == bf then BlueSector(p, delta)
           else 0.0)
    else 0.0
  }

  /** The full conversion of one pixel. */
  function RgbToHsv(p: Rgb): Hsv
  {
    var rf, gf, bf := Unit(p.r), Unit(p.g), Unit(p.b);
    var mx := RealMax(rf, RealMax(gf, bf));
    var mn := RealMin(rf, RealMin(gf, bf));
    var delta := mx - mn;
    var v := CastU8(mx * 255.0);
    var s := if mx > 0.0 then CastU8(delta / mx * 255.0) else 0;
    Hsv(CastU8(HueDegrees(p) / 2.0), s, v)
  }

  // ---------------------------------------------------------------------
  // Facts about the float helpers

  /** The remainder by 6 leaves any value of magnitude below 6 unchanged. */
  lemma FModSixSmall(x: real)
    requires -6.0 < x < 6.0
    ensures FMod(x, 6.0) == x
  {
    assert -1.0 < x / 6.0 < 1.0;
    assert Trunc(x / 6.0) == 0;
  }

  /** A quotient of two values of which the numerator is at most the denominator in magnitude. */
  lemma QuotientInUnitRange(a: real, d: real)
    requires d > 0.0 && -d <= a <= d
    ensures -1.0 <= a / d <= 1.0
  {
  }

  /** The common 1/255 scale cancels in a quotient of normalised channels. */
  lemma ScaleCancels(a: real, d: real)
    requires d > 0.0
    ensures (a / 255.0) / (d / 255.0) == a / d
  {
    var q := a / d;
    assert q * d == a;
    assert q * (d / 255.0) == a / 255.0;
  }

  /** The normalised channels as extremes of the integer channels. */
  lemma UnitExtremes(p: Rgb)
    ensures RealMax(Unit(p.r), RealMax(Unit(p.g), Unit(p.b))) == Unit(Max3(p.r, p.g, p.b))
    ensures RealMin(Unit(p.r), RealMin(Unit(p.g), Unit(p.b))) == Unit(Min3(p.r, p.g, p.b))
  {
  }

  // ---------------------------------------------------------------------
  // Properties of the conversion

  /** Over exact reals the value channel is the largest input channel. */
  lemma ValueIsMaxChannel(p: Rgb)
    ensures RgbToHsv(p).v == Max3(p.r, p.g, p.b)
  {
    UnitExtremes(p);
  }

  /** The hue in degrees lies in [0, 360), so the 8-bit hue is always below 180. */
  lemma HueInRange(p: Rgb)
    ensures 0.0 <= HueDegrees(p) < 360.0
    ensures RgbToHsv(p).h < 180
  {
    var rf, gf, bf := Unit(p.r), Unit(p.g), Unit(p.b);
    var mx := RealMax(rf, RealMax(gf, bf));
    var mn := RealMin(rf, RealMin(gf, bf));
    var delta := mx - mn;
    if delta > 0.0 {
      if mx == rf {
        QuotientInUnitRange(gf - bf, delta);
        FModSixSmall((gf - bf) / delta);
      } else if mx == gf {
        QuotientInUnitRange(bf - rf, delta);
      } else {
        QuotientInUnitRange(rf - gf, delta);
      }
    }
  }

  /** A grey pixel has hue 0 and saturation 0; its value is its common channel. */
  lemma GreyHasNoHueOrSaturation(p: Rgb)
    requires p.r == p.g == p.b
    ensures RgbToHsv(p) == Hsv(0, 0, p.r)
  {
    ValueIsMaxChannel(p);
  }

  /** The saturation is zero exactly for grey pixels, and full exactly when some channel is zero and some is not. */
  lemma SaturationExtremes(p: Rgb)
    ensures RgbToHsv(p).s == 0 <==> p.r == p.g == p.b
    ensures RgbToHsv(p).s == 255 <==> Min3(p.r, p.g, p.b) == 0 < Max3(p.r, p.g, p.b)
  {
    var hi, lo := Max3(p.r, p.g, p.b), Min3(p.r, p.g, p.b);
    UnitExtremes(p);
    if hi > 0 {
      var mx, mn := Unit(hi), Unit(lo);
      ScaleCancels(hi as real - lo as real, hi as real);
      assert (mx - mn) / mx == (hi - lo) as real / hi as real;
      SaturationScale(hi, lo);
    }
  }

  /** The scaled saturation ratio 255 * (hi - lo) / hi of two channel extremes. */
  lemma SaturationScale(hi: Byte, lo: Byte)
    requires 0 <= lo <= hi && hi > 0
    ensures var x := (hi - lo) as real / hi as real * 255.0;
      && 0.0 <= x <= 255.0
      && (x < 1.0 <==> lo == hi)
      && (x == 255.0 <==> lo == 0)
  {
    var q := (hi - lo) as real / hi as real;
    assert q * hi as real == (hi - lo) as real;
    assert 0.0 <= q <= 1.0;
    if hi > lo {
      assert q * hi as real >= 1.0;
      assert q * 255.0 >= q * hi as real;
    }
    if lo > 0 {
      assert q * hi as real < hi as real;
      assert q < 1.0;
    }
  }

  /**
   * When red ties with another channel for the maximum, the red branch is the
   * one taken, and the tied channel's own formula would give the same hue, so
   * the tie order does not change the result.
   */
  lemma TiesAgree(p: Rgb)
    requires p.r == Max3(p.r, p.g, p.b) > Min3(p.r, p.g, p.b)
    ensures var delta := Unit(p.r) - Unit(Min3(p.r, p.g, p.b));
      && HueDegrees(p) == Wrap(RedSector(p, delta))
      && (p.g == p.r ==> HueDegrees(p) == Wrap(GreenSector(p, delta)) == 60.0)
      && (p.b == p.r ==> HueDegrees(p) == Wrap(BlueSector(p, delta)) == 300.0)
  {
    UnitExtremes(p);
    var rf, gf, bf := Unit(p.r), Unit(p.g), Unit(p.b);
    var delta := rf - Unit(Min3(p.r, p.g, p.b));
    if p.g == p.r {
      assert delta == gf - bf;
      SignedUnitQuotient(gf - bf, delta);
      SignedUnitQuotient(bf - rf, delta);
      FModSixSmall(1.0);
    }
    if p.b == p.r {
      assert delta == rf - gf;
      SignedUnitQuotient(gf - bf, delta);
      SignedUnitQuotient(rf - gf, delta);
      FModSixSmall(-1.0);
    }
  }

  /** A quotient whose numerator is the denominator or its negation is 1 or -1. */
  lemma SignedUnitQuotient(a: real, d: real)
    requires d > 0.0
    ensures a == d ==> a / d == 1.0
    ensures a == -d ==> a / d == -1.0
  {
  }

  /** Pure red, green and blue have hue 0, 60 and 120, full saturation and full value. */
  lemma PrimaryColours()
    ensures RgbToHsv(Rgb(255, 0, 0)) == Hsv(0, 255, 255)
    ensures RgbToHsv(Rgb(0, 255, 0)) == Hsv(60, 255, 255)
    ensures RgbToHsv(Rgb(0, 0, 255)) == Hsv(120, 255, 255)
  {
    PureRed();
    PureGreen();
    PureBlue();
  }

  lemma PureRed()
    ensures RgbToHsv(Rgb(255, 0, 0)) == Hsv(0, 255, 255)
  {
    FModSixSmall(0.0);
  }

  lemma PureGreen()
    ensures RgbToHsv(Rgb(0, 255, 0)) == Hsv(60, 255, 255)
  {
  }

  lemma PureBlue()
    ensures RgbToHsv(Rgb(0, 0, 255)) == Hsv(120, 255, 255)
  {
  }
}
