/** `LengthUnit`: units of length, each with its count per metre. */
module LengthUnit {
  import Scaling

  datatype LengthUnit =
    MICROMETER | MILLIMETER | CENTIMETER | INCH | YARD | METER | KILOMETER | LIGHT_YEAR

  /** How many of the unit make one metre. */
  function Scale(u: LengthUnit): (r: real)
    ensures r > 0.0
  {
    match u
    case MICROMETER => 1000000.0
    case MILLIMETER => 1000.0
    case CENTIMETER => 100.0
    case INCH => 39.3701
    case YARD => 1.09361
    case METER => 1.0
    case KILOMETER => 0.001
    case LIGHT_YEAR => 0.0000000000001057
  }

  /** `target.convert(source, value)`. */
  function Convert(target: LengthUnit, source: LengthUnit, value: real): (r: real)
    ensures r * Scale(source) == value * Scale(target)
  {
    Scaling.Convert(Scale(source), Scale(target), value)
  }

  /** `toMeters(value)`. */
  function ToMeters(u: LengthUnit, value: real): (r: real)
    ensures r * Scale(u) == value
  {
    value / Scale(u)
  }

  /** Metre is the base unit: converting to metres is `toMeters`. */
  lemma ToMetersIsConvert(u: LengthUnit, v: real)
    ensures ToMeters(u, v) == Convert(METER, u, v)
  {
  }

  lemma ConvertSame(u: LengthUnit, v: real)
    ensures Convert(u, u, v) == v
  {
    Scaling.ConvertSame(Scale(u), v);
  }

  lemma ConvertBack(s: LengthUnit, t: LengthUnit, v: real)
    ensures Convert(s, t, Convert(t, s, v)) == v
  {
    Scaling.ConvertBack(Scale(s), Scale(t), v);
  }

  lemma ConvertCompose(s: LengthUnit, m: LengthUnit, t: LengthUnit, v: real)
    ensures Convert(t, m, Convert(m, s, v)) == Convert(t, s, v)
  {
    Scaling.ConvertCompose(Scale(s), Scale(m), Scale(t), v);
  }

  lemma ConvertLinear(s: LengthUnit, t: LengthUnit, k: real, v: real)
    ensures Convert(t, s, 0.0) == 0.0
    ensures Convert(t, s, k * v) == k * Convert(t, s, v)
  {
    Scaling.ConvertLinear(Scale(s), Scale(t), k, v, Convert(t, s, v));
  }

  /** A metre is a thousand millimetres; a kilometre is a thousand metres. */
  lemma ThousandFold(v: real)
    ensures Convert(MILLIMETER, METER, v) == 1000.0 * v
    ensures Convert(METER, KILOMETER, v) == 1000.0 * v
  {
  }
}
