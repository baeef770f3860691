/** `MassUnit`: units of mass, each with its count per kilogram. */
module MassUnit {
  import Scaling

  datatype MassUnit =
    MICROGRAM | MILLIGRAM | GRAIN | GRAM | POUND | KILOGRAM | TON | IMPERIAL_TON

  /** How many of the unit make one kilogram. */
  function Scale(u: MassUnit): (r: real)
    ensures r > 0.0
  {
    match u
    case MICROGRAM => 1000000000.0
    case MILLIGRAM => 1000000.0
    case GRAIN => 15432.358
    case GRAM => 1000.0
    case POUND => 2.20462
    case KILOGRAM => 1.0
    case TON => 0.001
    case IMPERIAL_TON => 0.000984207
  }

  /** `target.convert(source, value)`. */
  function Convert(target: MassUnit, source: MassUnit, value: real): (r: real)
    ensures r * Scale(source) == value * Scale(target)
  {
    Scaling.Convert(Scale(source), Scale(target), value)
  }

  /** `toKilograms(value)`. */
  function ToKilograms(u: MassUnit, value: real): (r: real)
    ensures r * Scale(u) == value
  {
    value / Scale(u)
  }

  /** Kilogram is the base unit: converting to kilograms is `toKilograms`. */
  lemma ToKilogramsIsConvert(u: MassUnit, v: real)
    ensures ToKilograms(u, v) == Convert(KILOGRAM, u, v)
  {
  }

  lemma ConvertSame(u: MassUnit, v: real)
    ensures Convert(u, u, v) == v
  {
    Scaling.ConvertSame(Scale(u), v);
  }

  lemma ConvertBack(s: MassUnit, t: MassUnit, v: real)
    ensures Convert(s, t, Convert(t, s, v)) == v
  {
    Scaling.ConvertBack(Scale(s), Scale(t), v);
  }

  lemma ConvertCompose(s: MassUnit, m: MassUnit, t: MassUnit, v: real)
    ensures Convert(t, m, Convert(m, s, v)) == Convert(t, s, v)
  {
    Scaling.ConvertCompose(Scale(s), Scale(m), Scale(t), v);
  }

  lemma ConvertLinear(s: MassUnit, t: MassUnit, k: real, v: real)
    ensures Convert(t, s, 0.0) == 0.0
    ensures Convert(t, s, k * v) == k * Convert(t, s, v)
  {
    Scaling.ConvertLinear(Scale(s), Scale(t), k, v, Convert(t, s, v));
  }

  /** A kilogram is a thousand grams; a (metric) ton is a thousand kilograms. */
  lemma ThousandFold(v: real)
    ensures Convert(GRAM, KILOGRAM, v) == 1000.0 * v
    ensures Convert(KILOGRAM, TON, v) == 1000.0 * v
  {
  }
}
