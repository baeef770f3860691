/** The conversion the three unit enums share: each unit has a positive scale, the
    number of that unit in one base unit, and `target.convert(source, v)` is
    `v / source.scale * target.scale`. */
module Scaling {

  function Convert(sourceScale: real, targetScale: real, value: real): real
    requires sourceScale != 0.0
  {
    value / sourceScale * targetScale
  }

  /** Converting to the same unit changes nothing. */
  lemma ConvertSame(s: real, v: real)
    requires s != 0.0
    ensures Convert(s, s, v) == v
  {
  }

  /** Converting there and back changes nothing. */
  lemma ConvertBack(s: real, t: real, v: real)
    requires s != 0.0 && t != 0.0
    ensures Convert(t, s, Convert(s, t, v)) == v
  {
    assert v / s * t / t == v / s;
  }

  /** Converting through an intermediate unit is converting directly. */
  lemma ConvertCompose(s: real, m: real, t: real, v: real)
    requires s != 0.0 && m != 0.0
    ensures Convert(m, t, Convert(s, m, v)) == Convert(s, t, v)
  {
    assert v / s * m / m == v / s;
  }

  /** Conversion is linear in the value. */
  lemma ConvertLinear(s: real, t: real, k: real, v: real, c: real)
    requires s != 0.0 && c == Convert(s, t, v)
    ensures Convert(s, t, 0.0) == 0.0
    ensures Convert(s, t, k * v) == k * c
  {
    assert k * v / s == k * (v / s);
  }
}
