/** The parts of the Java platform the library calls but whose code is not part of
    this model: IEEE doubles at the validation boundary, java.lang.Math's
    trigonometry, the raw bit casts of java.lang.Double, and decimal formatting
    and parsing of doubles. */
module Runtime {
  import opened Wrappers

  /** A Java double as the finiteness check sees it. Arithmetic in this model is on
      `real`, so non-finite values only arise from parsing text. */
  datatype Num = Fin(value: real) | NaN | PositiveInfinity | NegativeInfinity

  /** The library calls of the platform, passed to every operation that makes them. */
  datatype Platform = Platform(
    cos: real -> real,                  // Math.cos
    sin: real -> real,                  // Math.sin
    acos: real -> real,                 // Math.acos on [-1, 1]; NaN outside is modelled by callers
    doubleToLongBits: real -> int,      // Double.doubleToLongBits
    longBitsToDouble: int -> real,      // Double.longBitsToDouble on finite bit patterns
    formatDouble: real -> string,       // Double.toString
    parseDouble: string -> Option<Num>  // Double.parseDouble; None is a NumberFormatException
  )

  /** The trigonometric identities the lemmas about rotations rely on. */
  ghost predicate TrigLaws(p: Platform) {
    && p.cos(0.0) == 1.0
    && p.sin(0.0) == 0.0
    && p.acos(1.0) == 0.0
    && (forall a :: p.cos(a) * p.cos(a) + p.sin(a) * p.sin(a) == 1.0)
    && (forall w :: -1.0 <= w <= 1.0 ==> p.cos(p.acos(w)) == w)
  }

  /** Text that the field grammar `key=value, ...` cannot confuse with its own
      punctuation: non-empty and free of ',', '=', '{' and '}'. */
  predicate Plain(t: string) {
    |t| > 0 && ',' !in t && '=' !in t && '{' !in t && '}' !in t
  }

  /** Double.toString prints a finite double as plain decimal text (digits, '.', '-',
      'E') that Double.parseDouble reads back exactly. */
  ghost predicate FormatLaws(p: Platform) {
    forall r :: Plain(p.formatDouble(r)) && p.parseDouble(p.formatDouble(r)) == Some(Fin(r))
  }

  lemma Formatted(p: Platform, r: real)
    requires FormatLaws(p)
    ensures Plain(p.formatDouble(r)) && p.parseDouble(p.formatDouble(r)) == Some(Fin(r))
  {
  }
}
