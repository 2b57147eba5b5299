/** Identities over the reals behind the modularity formulas. */
module RealAlgebra {

  // Products are named so that proofs can match them as terms.

  function Times(x: real, y: real): real {
    x * y
  }

  function Square(x: real): real {
    Times(x, x)
  }

  /** How far two squares move apart when k passes between their bases. */
  ghost function Shift(k: real, to: real, from: real): real {
    2.0 * k * (to - from)
  }

  /** Inside weight against squared degree, for total weight m. */
  ghost function Balance(inside: real, squares: real, m: real): real
    requires m != 0.0
  {
    inside / m - squares / (4.0 * m * m)
  }

  /** One community's term of Newman's Q. */
  function Share(inside: real, degree: real, m: real): real
    requires m != 0.0
  {
    var a := degree / (2.0 * m);
    inside / m - Square(a)
  }

  /** The modularity gain formula. */
  function GainOf(joining: real, rest: real, k: real, m2: real): real
    requires m2 != 0.0
  {
    joining - rest * k / m2
  }

  ghost function Mix(p: real, x: real, r: real, y: real): real {
    p * x + r * y
  }

  lemma Divide(x: real, m: real)
    requires m != 0.0
    ensures x / m == x * (1.0 / m)
    ensures x / (2.0 * m) == x * (1.0 / m) / 2.0
  {
    var q := 1.0 / m;
    assert q * m == 1.0;
    var d := x * q;
    assert d * m == x * (q * m);
    assert (d / 2.0) * (2.0 * m) == x;
  }

  lemma DivideSquare(x: real, m: real)
    requires m != 0.0
    ensures x / (4.0 * m * m) == x * (1.0 / m) / 4.0 * (1.0 / m)
  {
    var q := 1.0 / m;
    assert q * m == 1.0;
    var d := x * q / 4.0 * q;
    assert d * (4.0 * m * m) == x * (q * m) * (q * m);
  }

  lemma TermAlgebra(x: real, d: real, m: real)
    requires m != 0.0
    ensures Share(x, d, m) == Mix(1.0 / m, x, -1.0 / (4.0 * m * m), Square(d))
  {
    Divide(x, m);
    Divide(d, m);
    DivideSquare(-1.0, m);
  }

  lemma TotalAlgebra(i: real, e: real, m: real)
    requires m != 0.0
    ensures Mix(1.0 / m, i, -1.0 / (4.0 * m * m), e) == Balance(i, e, m)
  {
    Divide(i, m);
    DivideSquare(-1.0, m);
    DivideSquare(e, m);
  }

  lemma SquareAlgebra(c: real, f: real, k: real)
    ensures Square(c + k) - Square(c) + Square(f - k) - Square(f) == Shift(k, c, f - k)
  {
  }

  lemma GainAlgebra(i: real, sc: real, sf: real, e: real, rc: real, rf: real, k: real, m: real)
    requires m != 0.0
    ensures Balance(i + sc - sf, e + Shift(k, rc, rf), m) - Balance(i, e, m)
         == (GainOf(sc, rc, k, 2.0 * m) - GainOf(sf, rf, k, 2.0 * m)) / m
  {
    var c, f := rc * k, rf * k;
    assert e + 2.0 * k * (rc - rf) == e + 2.0 * c - 2.0 * f;
    Divide(i + sc - sf, m);
    Divide(i, m);
    Divide(c, m);
    Divide(f, m);
    DivideSquare(e + 2.0 * c - 2.0 * f, m);
    DivideSquare(e, m);
    Divide((sc - c / (2.0 * m)) - (sf - f / (2.0 * m)), m);
    GainPolynomial(i, sc, sf, e, c, f, 1.0 / m);
  }

  lemma GainPolynomial(i: real, sc: real, sf: real, e: real, c: real, f: real, q: real)
    ensures (i + sc - sf) * q - (e + 2.0 * c - 2.0 * f) * q / 4.0 * q - (i * q - e * q / 4.0 * q)
         == ((sc - c * q / 2.0) - (sf - f * q / 2.0)) * q
  {
    var E, C, F := e * q, c * q, f * q;
    var t := (e + 2.0 * c - 2.0 * f) * q;
    assert t == E + 2.0 * C - 2.0 * F;
    Spread(i, sc, -sf, q);
    Spread(E / 4.0, C / 2.0, - F / 2.0, q);
    Spread(sc - sf, - C / 2.0, F / 2.0, q);
    Spread(sc, -sf, 0.0, q);
    assert t / 4.0 * q == (E / 4.0 + C / 2.0 + - F / 2.0) * q;
    assert t / 4.0 * q == E / 4.0 * q + C / 2.0 * q + - F / 2.0 * q;
    assert ((sc - C / 2.0) - (sf - F / 2.0)) * q == (sc - sf + - C / 2.0 + F / 2.0) * q;
    assert (i + sc - sf) * q == (i + sc + -sf) * q;
    assert (-sf) * q == -(sf * q);
  }

  lemma Spread(a: real, b: real, c: real, q: real)
    ensures (a + b + c) * q == a * q + b * q + c * q
  {}
}
