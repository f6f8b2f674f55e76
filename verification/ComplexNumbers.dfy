/** Complex numbers as in bomp/benchmark/npb-C.h, over exact reals, with the ring laws that the
    transform proofs use.  Those proofs hide the operations and reason by the laws alone. */
module ComplexNumbers {

  datatype Complex = Complex(re: real, im: real)

  const ZERO := Complex(0.0, 0.0)
  const ONE := Complex(1.0, 0.0)
  const MINUS_ONE := Complex(-1.0, 0.0)

  function Add(a: Complex, b: Complex): Complex { Complex(a.re + b.re, a.im + b.im) }

  function Sub(a: Complex, b: Complex): Complex { Complex(a.re - b.re, a.im - b.im) }

  function Mul(a: Complex, b: Complex): Complex {
    Complex(a.re * b.re - a.im * b.im, a.re * b.im + a.im * b.re)
  }

  function Conj(a: Complex): Complex { Complex(a.re, -a.im) }

  function FromInt(n: int): Complex { Complex(n as real, 0.0) }

  lemma AddLaws(a: Complex, b: Complex, c: Complex)
    ensures Add(a, b) == Add(b, a) && Add(Add(a, b), c) == Add(a, Add(b, c)) && Add(a, ZERO) == a == Add(ZERO, a)
  {
  }

  lemma MulLaws(a: Complex, b: Complex)
    ensures Mul(a, b) == Mul(b, a) && Mul(ONE, a) == a == Mul(a, ONE) && Mul(ZERO, a) == ZERO == Mul(a, ZERO)
    ensures Mul(MINUS_ONE, Mul(MINUS_ONE, a)) == a && Add(b, Mul(MINUS_ONE, a)) == Sub(b, a) && Sub(a, a) == ZERO
  {
  }

  lemma MulAssoc(a: Complex, b: Complex, c: Complex)
    ensures Mul(Mul(a, b), c) == Mul(a, Mul(b, c))
  {
  }

  lemma Distribute(a: Complex, b: Complex, c: Complex)
    ensures Mul(a, Add(b, c)) == Add(Mul(a, b), Mul(a, c)) && Mul(a, Sub(b, c)) == Sub(Mul(a, b), Mul(a, c))
  {
  }

  lemma Interchange(a: Complex, b: Complex, c: Complex, d: Complex)
    ensures Add(Add(a, b), Add(c, d)) == Add(Add(a, c), Add(b, d))
    ensures Add(Sub(a, b), Sub(c, d)) == Sub(Add(a, c), Add(b, d))
    ensures Add(Add(a, b), Sub(a, b)) == Add(a, a) && Sub(Add(a, b), Sub(a, b)) == Add(b, b)
  {
  }

  lemma ConjMul(a: Complex, b: Complex)
    ensures Conj(Mul(a, b)) == Mul(Conj(a), Conj(b))
  {
    assert (-a.im) * (-b.im) == a.im * b.im;
    assert a.re * (-b.im) == -(a.re * b.im) && (-a.im) * b.re == -(a.im * b.re);
  }

  lemma MulConj(a: Complex)
    ensures Mul(a, Conj(a)) == Complex(a.re * a.re + a.im * a.im, 0.0)
  {
    assert a.im * (-a.im) == -(a.im * a.im) && a.re * (-a.im) == -(a.re * a.im);
  }

  lemma FromIntLaws(m: int, n: int, a: Complex)
    ensures Mul(FromInt(m), FromInt(n)) == FromInt(m * n) && FromInt(1) == ONE
    ensures Mul(FromInt(2 * n), a) == Mul(FromInt(n), Add(a, a))
  {
    assert (m * n) as real == (m as real) * (n as real);
  }
}
