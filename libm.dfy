/** The part of Ruby's Math module that the Point3D and RAstro code calls.

    Nothing here is computed: sin, cos, atan and sqrt are parameters of the
    model, and `Lawful` lists the only facts the proofs may use about them.
    PI is the value of Ruby's Math::PI. */
module Libm {

  const PI: real := 3.141592653589793

  /** sin, cos and atan in radians; sqrt of a non-negative argument. */
  datatype Math = Math(sin: real -> real, cos: real -> real, atan: real -> real, sqrt: real -> real)

  /** The laws of the mathematical functions that the model relies on. */
  ghost predicate Lawful(m: Math) {
    && (forall a :: m.sin(a) * m.sin(a) + m.cos(a) * m.cos(a) == 1.0)
    && m.sin(0.0) == 0.0
    && m.cos(0.0) == 1.0
    && (forall a, b :: a + b == 0.0 ==> m.atan(a) + m.atan(b) == 0.0)
    && (forall a :: -PI / 2.0 < m.atan(a) < PI / 2.0)
    && (forall a :: 0.0 <= a ==> 0.0 <= m.atan(a))
    && (forall a :: 0.0 <= a ==> 0.0 <= m.sqrt(a) && m.sqrt(a) * m.sqrt(a) == a)
  }

  /** Ruby's Math.sqrt as called by the model. */
  function Sqrt(m: Math, a: real): real {
    m.sqrt(a)
  }

  function Abs(a: real): (r: real)
    ensures 0.0 <= r && (r == a || r == -a)
  {
    if a < 0.0 then -a else a
  }

  /** atan is odd; in particular atan(0) = 0. */
  lemma AtanOdd(m: Math, a: real)
    requires Lawful(m)
    ensures m.atan(-a) == -m.atan(a)
    ensures m.atan(0.0) == 0.0
  {
    assert a + -a == 0.0;
    assert 0.0 + 0.0 == 0.0;
  }

  lemma SqrtLaw(m: Math, a: real)
    requires Lawful(m)
    requires 0.0 <= a
    ensures 0.0 <= Sqrt(m, a) && Sqrt(m, a) * Sqrt(m, a) == a
  {
  }

  /** sqrt is the unique non-negative square root. */
  lemma SqrtOfSquare(m: Math, r: real)
    requires Lawful(m)
    requires 0.0 <= r
    ensures Sqrt(m, r * r) == r
  {
    var s := Sqrt(m, r * r);
    SqrtLaw(m, r * r);
    assert 0.0 <= s && s * s == r * r;
    if s > r {
      SquareMonotone(r, s);
      assert false;
    } else if s < r {
      SquareMonotone(s, r);
      assert false;
    }
  }

  lemma SquareMonotone(a: real, b: real)
    requires 0.0 <= a < b
    ensures a * a < b * b
  {
    var aa, ab, bb := a * a, a * b, b * b;
    assert aa <= ab;
    assert ab < bb;
  }

  lemma SquareZero(a: real)
    requires a * a == 0.0
    ensures a == 0.0
  {
    if a > 0.0 {
      SquareMonotone(0.0, a);
    } else if a < 0.0 {
      SquareMonotone(0.0, -a);
    }
  }

  /** sin^2 and cos^2 are at most 1. */
  lemma SinCosBounded(m: Math, a: real)
    requires Lawful(m)
    ensures m.sin(a) * m.sin(a) <= 1.0 && m.cos(a) * m.cos(a) <= 1.0
  {
    var s, c := m.sin(a), m.cos(a);
    assert s * s + c * c == 1.0;
    assert 0.0 <= s * s && 0.0 <= c * c;
  }
}
