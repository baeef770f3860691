/** `SpeedUnit`: units of speed, each with its count per metre per second. */
module SpeedUnit {
  import Scaling

  datatype SpeedUnit =
    KILOMETERS_PER_HOUR | FEET_PER_SECOND | MILES_PER_HOUR | METERS_PER_SECOND | LIGHT_SPEED

  /** How many of the unit make one metre per second. */
  function Scale(u: SpeedUnit): (r: real)
    ensures r > 0.0
  {
    match u
    case KILOMETERS_PER_HOUR => 3.6
    case FEET_PER_SECOND => 3.28084
    case MILES_PER_HOUR => 2.23694
    case METERS_PER_SECOND => 1.0
    case LIGHT_SPEED => 0.00000000333555704
  }

  /** `target.convert(source, value)`. */
  function Convert(target: SpeedUnit, source: SpeedUnit, value: real): (r: real)
    ensures r * Scale(source) == value * Scale(target)
  {
    Scaling.Convert(Scale(source), Scale(target), value)
  }

  /** `toMetersPerSecond(value)`. */
  function ToMetersPerSecond(u: SpeedUnit, value: real): (r: real)
    ensures r * Scale(u) == value
  {
    value / Scale(u)
  }

  /** Metres per second is the base unit: converting to it is `toMetersPerSecond`. */
  lemma ToMetersPerSecondIsConvert(u: SpeedUnit, v: real)
    ensures ToMetersPerSecond(u, v) == Convert(METERS_PER_SECOND, u, v)
  {
  }

  lemma ConvertSame(u: SpeedUnit, v: real)
    ensures Convert(u, u, v) == v
  {
    Scaling.ConvertSame(Scale(u), v);
  }

  lemma ConvertBack(s: SpeedUnit, t: SpeedUnit, v: real)
    ensures Convert(s, t, Convert(t, s, v)) == v
  {
    Scaling.ConvertBack(Scale(s), Scale(t), v);
  }

  lemma ConvertCompose(s: SpeedUnit, m: SpeedUnit, t: SpeedUnit, v: real)
    ensures Convert(t, m, Convert(m, s, v)) == Convert(t, s, v)
  {
    Scaling.ConvertCompose(Scale(s), Scale(m), Scale(t), v);
  }

  lemma ConvertLinear(s: SpeedUnit, t: SpeedUnit, k: real, v: real)
    ensures Convert(t, s, 0.0) == 0.0
    ensures Convert(t, s, k * v) == k * Convert(t, s, v)
  {
    Scaling.ConvertLinear(Scale(s), Scale(t), k, v, Convert(t, s, v));
  }

  /** One metre per second is 3.6 kilometres per hour. */
  lemma KilometersPerHour(v: real)
    ensures Convert(KILOMETERS_PER_HOUR, METERS_PER_SECOND, v) == 3.6 * v
  {
  }
}
