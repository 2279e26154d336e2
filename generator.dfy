/** The mode-driven reading generator: five range rules, one of them with a
    baseline that drifts with the number of readings taken, and the stateful
    simulator that counts its readings and dispatches on its mode. */
module Generator {
  import opened Modes
  import opened Readings

  /** Lowest soil baseline of the drought scenario, and its per-reading drop. */
  const DryFloor := 1200
  const DryStart := 2400
  const DryStep := 50

  /** Drought soil baseline after `count` readings: it starts from 2400, drops
      by 50 per reading, and is clamped from below at 1200. */
  function DrySoilBase(count: int): (b: int)
    ensures b >= DryFloor && b >= DryStart - DryStep * count
    ensures b == DryFloor || b == DryStart - DryStep * count
  {
    if DryStart - DryStep * count < DryFloor then DryFloor else DryStart - DryStep * count
  }

  /** Healthy plant: soil 2000..2400, light 1000..1500, 26.0..30.0 °C,
      50.0..70.0 %. */
  function NormalReading(d: Draw): (r: Reading)
    ensures 2000 <= r.soil <= 2400 && 1000 <= r.light <= 1500
    ensures 260 <= r.temp <= 300 && 500 <= r.humidity <= 700
  {
    Reading(RandInt(2000, 2400, d.soil), RandInt(1000, 1500, d.light),
            Uniform(260, 300, d.temp), Uniform(500, 700, d.humidity))
  }

  /** Drought: soil within 100 of the drifting baseline for this reading's
      count, light 1200..1600, 30.0..34.0 °C, 35.0..50.0 %. */
  function DrySoilReading(count: int, d: Draw): (r: Reading)
    ensures DrySoilBase(count) - 100 <= r.soil <= DrySoilBase(count) + 100
    ensures count >= 1 ==> 1100 <= r.soil <= 2450
    ensures 1200 <= r.light <= 1600
    ensures 300 <= r.temp <= 340 && 350 <= r.humidity <= 500
  {
    var base := DrySoilBase(count);
    Reading(RandInt(base - 100, base + 100, d.soil), RandInt(1200, 1600, d.light),
            Uniform(300, 340, d.temp), Uniform(350, 500, d.humidity))
  }

  /** Heat wave: soil 1600..2000, light 1500..1800, 34.0..40.0 °C,
      30.0..45.0 %. */
  function HotWeatherReading(d: Draw): (r: Reading)
    ensures 1600 <= r.soil <= 2000 && 1500 <= r.light <= 1800
    ensures 340 <= r.temp <= 400 && 300 <= r.humidity <= 450
  {
    Reading(RandInt(1600, 2000, d.soil), RandInt(1500, 1800, d.light),
            Uniform(340, 400, d.temp), Uniform(300, 450, d.humidity))
  }

  /** Night: soil 2000..2400, light 0..200, 20.0..25.0 °C, 60.0..80.0 %. */
  function NightReading(d: Draw): (r: Reading)
    ensures 2000 <= r.soil <= 2400 && 0 <= r.light <= 200
    ensures 200 <= r.temp <= 250 && 600 <= r.humidity <= 800
  {
    Reading(RandInt(2000, 2400, d.soil), RandInt(0, 200, d.light),
            Uniform(200, 250, d.temp), Uniform(600, 800, d.humidity))
  }

  /** Fully random: every field anywhere within the thresholds, whatever
      their values, as long as the integer ranges are not empty. */
  function RandomReading(t: Thresholds, d: Draw): (r: Reading)
    requires IntRangesOrdered(t)
    ensures Within(r, t)
  {
    Reading(RandInt(t.soilMin, t.soilMax, d.soil), RandInt(t.lightMin, t.lightMax, d.light),
            Uniform(t.tempMin, t.tempMax, d.temp), Uniform(t.humidityMin, t.humidityMax, d.humidity))
  }

  /** The documented envelope of each scenario for the reading with the given
      count: the reference against which the range rules are checked. */
  function ModeEnvelope(mode: Mode, count: int, t: Thresholds): Thresholds
  {
    match mode
    case Normal => Thresholds(2000, 2400, 1000, 1500, 260, 300, 500, 700)
    case DrySoil =>
      var base := DrySoilBase(count);
      Thresholds(base - 100, base + 100, 1200, 1600, 300, 340, 350, 500)
    case HotWeather => Thresholds(1600, 2000, 1500, 1800, 340, 400, 300, 450)
    case NightTime => Thresholds(2000, 2400, 0, 200, 200, 250, 600, 800)
    case Random => t
  }

  /** What one generation produces: one range rule per scenario, chosen by the
      mode, with the drought rule seeing the count of this reading. */
  function Generate(mode: Mode, count: int, t: Thresholds, d: Draw): (r: Reading)
    requires mode == Random ==> IntRangesOrdered(t)
    ensures Within(r, ModeEnvelope(mode, count, t))
  {
    match mode
    case Normal => NormalReading(d)
    case DrySoil => DrySoilReading(count, d)
    case HotWeather => HotWeatherReading(d)
    case NightTime => NightReading(d)
    case Random => RandomReading(t, d)
  }

  /** The range rules are exact: every reading within a scenario's envelope is
      produced by some draw of the random source. */
  lemma GenerateCovers(mode: Mode, count: int, t: Thresholds, r: Reading)
    requires mode == Random ==> IntRangesOrdered(t)
    requires Within(r, ModeEnvelope(mode, count, t))
    ensures exists d :: Generate(mode, count, t, d) == r
  {
    var e := ModeEnvelope(mode, count, t);
    assert e.soilMin <= e.soilMax && e.lightMin <= e.lightMax;
    RandIntCovers(e.soilMin, e.soilMax, r.soil);
    RandIntCovers(e.lightMin, e.lightMax, r.light);
    UniformCovers(e.tempMin, e.tempMax, r.temp);
    UniformCovers(e.humidityMin, e.humidityMax, r.humidity);
    var d := Draw(r.soil - e.soilMin, r.light - e.lightMin,
                  if e.tempMin <= e.tempMax then r.temp - e.tempMin else r.temp - e.tempMax,
                  if e.humidityMin <= e.humidityMax then r.humidity - e.humidityMin else r.humidity - e.humidityMax);
    assert Generate(mode, count, t, d) == r;
  }

  /** The drought baseline never rises from one reading to a later one. */
  lemma DrySoilBaseNonIncreasing(m: int, n: int)
    requires m <= n
    ensures DrySoilBase(n) <= DrySoilBase(m)
  {
  }

  /** Until it reaches the floor the baseline drops by exactly 50 per reading;
      from the 24th reading on it stays at the floor. */
  lemma DrySoilBaseDrift(n: nat)
    ensures n < 24 ==> DrySoilBase(n + 1) == DrySoilBase(n) - DryStep
    ensures n >= 24 ==> DrySoilBase(n) == DryFloor
  {
  }

  /** The readings of `|ds|` successive generations, starting from a
      simulator that has already taken `start` readings. */
  function Run(mode: Mode, t: Thresholds, start: nat, ds: seq<Draw>): (rs: seq<Reading>)
    requires mode == Random ==> IntRangesOrdered(t)
    ensures |rs| == |ds|
    decreases |ds|
  {
    if ds == [] then []
    else [Generate(mode, start + 1, t, ds[0])] + Run(mode, t, start + 1, ds[1..])
  }

  /** The i-th reading of a run is the one generated with count `start + i + 1`
      from the i-th draw. */
  lemma {:induction false} RunAt(mode: Mode, t: Thresholds, start: nat, ds: seq<Draw>, i: nat)
    requires mode == Random ==> IntRangesOrdered(t)
    requires i < |ds|
    ensures Run(mode, t, start, ds)[i] == Generate(mode, start + i + 1, t, ds[i])
    decreases i
  {
    if i > 0 {
      RunAt(mode, t, start + 1, ds[1..], i - 1);
    }
  }

  /** However many readings a simulator has taken, every reading of a run lies
      in its scenario's envelope for that reading's count. */
  lemma RunWithinEnvelope(mode: Mode, t: Thresholds, start: nat, ds: seq<Draw>)
    requires mode == Random ==> IntRangesOrdered(t)
    ensures forall i :: 0 <= i < |ds| ==>
      Within(Run(mode, t, start, ds)[i], ModeEnvelope(mode, start + i + 1, t))
  {
    forall i | 0 <= i < |ds|
      ensures Within(Run(mode, t, start, ds)[i], ModeEnvelope(mode, start + i + 1, t))
    {
      RunAt(mode, t, start, ds, i);
    }
  }

  /** A run of the drought scenario from a fresh simulator: the soil of the
      i-th reading lies within 100 of the baseline `max(1200, 2400 - 50 (i+1))`,
      and no later reading's range lies above an earlier one's. */
  lemma DrySoilRunDrifts(ds: seq<Draw>, i: nat, j: nat)
    requires i <= j < |ds|
    ensures var rs := Run(DrySoil, DefaultThresholds(), 0, ds);
      DrySoilBase(i + 1) - 100 <= rs[i].soil <= DrySoilBase(i + 1) + 100 &&
      DrySoilBase(j + 1) <= DrySoilBase(i + 1)
  {
    RunWithinEnvelope(DrySoil, DefaultThresholds(), 0, ds);
    DrySoilBaseNonIncreasing(i + 1, j + 1);
  }

  /** The generator's state: its scenario and its default thresholds, both
      fixed at construction, and the number of readings taken so far. */
  class SensorSimulator {
    const mode: Mode
    const thresholds: Thresholds
    var count: nat

    ghost predicate Valid()
    {
      IntRangesOrdered(thresholds)
    }

    constructor (mode: Mode)
      ensures this.mode == mode && thresholds == DefaultThresholds()
      ensures count == 0 && Valid()
    {
      this.mode := mode;
      thresholds := DefaultThresholds();
      count := 0;
    }

    /** Counts the reading, then produces it by the range rule of the mode; the
      drought rule sees the incremented count. */
    method GenerateReading(d: Draw) returns (r: Reading)
      requires Valid()
      modifies this
      ensures count == old(count) + 1
      ensures r == Generate(mode, count, thresholds, d)
      ensures Within(r, ModeEnvelope(mode, count, thresholds))
    {
      count := count + 1;
      if mode == DrySoil {
        r := DrySoilReading(count, d);
      } else if mode == HotWeather {
        r := HotWeatherReading(d);
      } else if mode == NightTime {
        r := NightReading(d);
      } else if mode == Random {
        r := RandomReading(thresholds, d);
      } else {
        r := NormalReading(d);
      }
    }
  }
}
