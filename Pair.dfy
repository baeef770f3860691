/** `Pair<T>`: two elements whose order does not matter to `equals`. Element
    equality is Dafny's `==`, which stands for an `equals` that is reflexive and
    symmetric. */
module Pair {
  import opened Wrappers

  datatype Pair<T> = Pair(a: T, b: T)

  /** The argument of `equals(Object)`: null, an object that is not a pair, or a
      pair. */
  datatype Candidate<T> = NullObject | NotAPair | APair(pair: Pair<T>)

  /** `of(a, b)`: a new pair of the two arguments; the receiver plays no part. */
  function Of<T>(receiver: Pair<T>, a: T, b: T): (r: Pair<T>)
    ensures r.a == a && r.b == b
  {
    Pair(a, b)
  }

  /** `contains(obj)`: `obj` is null or not a T (None), or equals a or b. */
  function Contains<T(==)>(p: Pair<T>, obj: Option<T>): (r: bool)
    ensures obj.None? ==> !r
    ensures obj.Some? ==> (r <==> obj.value in Elements(p))
  {
    obj == Some(p.a) || obj == Some(p.b)
  }

  /** `other(obj)`: b for a, a for b (a is checked first), an
      IllegalArgumentException for anything else. */
  function Other<T(==)>(p: Pair<T>, obj: T): (r: Result<T>)
    ensures r.Err? <==> !Contains(p, Some(obj))
    ensures r.Err? ==> r.error == IllegalArgument
    ensures r.Ok? ==> Equals(p, APair(Pair(obj, r.value)))
  {
    if p.a == obj then Ok(p.b)
    else if p.b == obj then Ok(p.a)
    else Err(IllegalArgument)
  }

  /** `equals(o)`: false for null and for non-pairs; otherwise the components match
      in the same or in the swapped order. */
  function Equals<T(==)>(p: Pair<T>, o: Candidate<T>): (r: bool)
    ensures !o.APair? ==> !r
    ensures o.APair? ==> (r <==> Elements(p) == Elements(o.pair))
  {
    match o
    case NullObject => false
    case NotAPair => false
    case APair(q) =>
      SameElements(p, q);
      (p.a == q.a && p.b == q.b) || (p.a == q.b && p.b == q.a)
  }

  //
  // Properties
  //

  /** The elements of a pair, without order. */
  function Elements<T>(p: Pair<T>): multiset<T> {
    multiset{p.a, p.b}
  }

  /** `contains` is membership in the elements. */
  lemma ContainsElements<T>(p: Pair<T>, x: T)
    ensures Contains(p, Some(x)) <==> x in Elements(p)
  {
  }

  /** Two pairs hold the same elements, counted with multiplicity, exactly when
      their components match in the same or in the swapped order. */
  lemma SameElements<T>(p: Pair<T>, q: Pair<T>)
    ensures (p.a == q.a && p.b == q.b) || (p.a == q.b && p.b == q.a) <==> Elements(p) == Elements(q)
  {
    if Elements(p) == Elements(q) {
      assert p.a in Elements(q);
      if p.a == q.a {
        assert Elements(p) - multiset{p.a} == multiset{p.b};
        assert Elements(q) - multiset{q.a} == multiset{q.b};
      } else {
        assert p.a == q.b;
        assert Elements(p) - multiset{p.a} == multiset{p.b};
        assert Elements(q) - multiset{q.b} == multiset{q.a};
      }
    }
  }

  lemma EqualsSwapped<T>(x: T, y: T)
    ensures Equals(Pair(x, y), APair(Pair(y, x)))
  {
  }

  lemma EqualsReflexive<T>(p: Pair<T>)
    ensures Equals(p, APair(p))
  {
  }

  lemma EqualsSymmetric<T>(p: Pair<T>, q: Pair<T>)
    ensures Equals(p, APair(q)) <==> Equals(q, APair(p))
  {
  }

  lemma EqualsTransitive<T>(p: Pair<T>, q: Pair<T>, r: Pair<T>)
    requires Equals(p, APair(q)) && Equals(q, APair(r))
    ensures Equals(p, APair(r))
  {
  }

  /** Nothing that is null or not a pair equals a pair. */
  lemma EqualsOnlyPairs<T>(p: Pair<T>)
    ensures !Equals(p, NullObject) && !Equals(p, NotAPair)
  {
  }

  /** When both elements are the same, `other` gives that element back. */
  lemma OtherOfTwin<T>(x: T)
    ensures Other(Pair(x, x), x) == Ok(x)
  {
  }

  /** Taking `other` twice returns to the start. */
  lemma OtherTwice<T>(p: Pair<T>, obj: T)
    requires Contains(p, Some(obj))
    ensures Other(p, Other(p, obj).value) == Ok(obj)
  {
  }
}
