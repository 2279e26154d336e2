/** Readings, threshold envelopes and the random draws that produce them.
    Temperature and humidity are kept in integer tenths (26.0 °C is 260), the
    one-decimal precision the generator rounds them to. */
module Readings {

  /** One synthetic sample: soil moisture and light intensity as raw integers,
      temperature (°C) and relative humidity (%) in tenths. */
  datatype Reading = Reading(soil: int, light: int, temp: int, humidity: int)

  /** Eight closed bounds, one pair per sensor; temperature and humidity in
      tenths. */
  datatype Thresholds = Thresholds(
    soilMin: int, soilMax: int,
    lightMin: int, lightMax: int,
    tempMin: int, tempMax: int,
    humidityMin: int, humidityMax: int)

  /** The record's default values: soil 1800..2600, light 800..1800,
      24.0..35.0 °C and 40.0..80.0 %. */
  function DefaultThresholds(): (t: Thresholds)
    ensures IntRangesOrdered(t)
  {
    Thresholds(1800, 2600, 800, 1800, 240, 350, 400, 800)
  }

  /** The integer draws need non-empty ranges: an integer draw from an empty
      range is an error. */
  predicate IntRangesOrdered(t: Thresholds)
  {
    t.soilMin <= t.soilMax && t.lightMin <= t.lightMax
  }

  /** `v` lies in the closed interval spanned by `a` and `b`, in either order. */
  predicate Between(v: int, a: int, b: int)
  {
    (a <= v <= b) || (b <= v <= a)
  }

  /** Every field of `r` lies within its pair of bounds in `e`. */
  predicate Within(r: Reading, e: Thresholds)
  {
    Between(r.soil, e.soilMin, e.soilMax) &&
    Between(r.light, e.lightMin, e.lightMax) &&
    Between(r.temp, e.tempMin, e.tempMax) &&
    Between(r.humidity, e.humidityMin, e.humidityMax)
  }

  /** The raw output of the random source for one reading, consumed in the
      order soil, light, temperature, humidity. */
  datatype Draw = Draw(soil: nat, light: nat, temp: nat, humidity: nat)

  /** An integer drawn uniformly from the inclusive range `lo..hi`, given the
      raw random value `x`. */
  function RandInt(lo: int, hi: int, x: nat): (v: int)
    requires lo <= hi
    ensures lo <= v <= hi
  {
    lo + x % (hi - lo + 1)
  }

  /** A value drawn from the closed interval spanned by `a` and `b` (either may
      be the larger) and rounded to one decimal, in tenths. */
  function Uniform(a: int, b: int, x: nat): (v: int)
    ensures Between(v, a, b)
  {
    if a <= b then a + x % (b - a + 1) else b + x % (a - b + 1)
  }

  /** The integer draw can produce every value of its range: modelling the
      random source by `RandInt` narrows nothing. */
  lemma RandIntCovers(lo: int, hi: int, v: int)
    requires lo <= v <= hi
    ensures RandInt(lo, hi, v - lo) == v
  {
    SmallModulo(v - lo, hi - lo + 1);
  }

  /** The same for the rounded continuous draw. */
  lemma UniformCovers(a: int, b: int, v: int)
    requires Between(v, a, b)
    ensures Uniform(a, b, if a <= b then v - a else v - b) == v
  {
    if a <= b {
      SmallModulo(v - a, b - a + 1);
    } else {
      SmallModulo(v - b, a - b + 1);
    }
  }

  lemma SmallModulo(x: nat, n: int)
    requires x < n
    ensures x % n == x
  {
  }
}
