/** The discrete Fourier transform as evaluation of a polynomial at the powers of a root of unity, the
    radix-2 split behind the Stockham stages of bomp/benchmark/ft.c, and inversion. */
module Dft {
  import opened ComplexNumbers

  function Power(z: Complex, e: nat): Complex {
    if e == 0 then ONE else Mul(z, Power(z, e - 1))
  }

  /** x[0] + x[1]*z + x[2]*z^2 + ... */
  function Eval(x: seq<Complex>, z: Complex): Complex {
    if x == [] then ZERO else Add(x[0], Mul(z, Eval(x[1..], z)))
  }

  /** Output k is the sum over j of x[j] * w^(j*k). */
  function Transform(x: seq<Complex>, w: Complex): seq<Complex> {
    seq(|x|, k requires 0 <= k => Eval(x, Power(w, k)))
  }

  function Scale(c: Complex, x: seq<Complex>): seq<Complex> {
    seq(|x|, i requires 0 <= i < |x| => Mul(c, x[i]))
  }

  function PairAdd(a: seq<Complex>, b: seq<Complex>): seq<Complex>
    requires |a| == |b|
  {
    seq(|a|, i requires 0 <= i < |a| => Add(a[i], b[i]))
  }

  function PairSub(a: seq<Complex>, b: seq<Complex>): seq<Complex>
    requires |a| == |b|
  {
    seq(|a|, i requires 0 <= i < |a| => Sub(a[i], b[i]))
  }

  function Twist(a: seq<Complex>, w: Complex): seq<Complex> {
    seq(|a|, i requires 0 <= i < |a| => Mul(Power(w, i), a[i]))
  }

  // ---------- Powers ----------

  lemma {:induction false} PowerAdd(z: Complex, m: nat, n: nat)
    ensures Power(z, m + n) == Mul(Power(z, m), Power(z, n))
  {
    hide Mul;
    if m == 0 {
      MulLaws(Power(z, n), ONE);
    } else {
      PowerAdd(z, m - 1, n);
      MulAssoc(z, Power(z, m - 1), Power(z, n));
    }
  }

  lemma {:induction false} PowerMul(z: Complex, m: nat, n: nat)
    ensures m * n >= 0 && Power(Power(z, m), n) == Power(z, m * n)
  {
    hide Mul;
    if n > 0 {
      PowerMul(z, m, n - 1);
      assert m * n == m + m * (n - 1);
      PowerAdd(z, m, m * (n - 1));
    }
  }

  lemma {:induction false} PowerProduct(y: Complex, z: Complex, n: nat)
    ensures Power(Mul(y, z), n) == Mul(Power(y, n), Power(z, n))
  {
    hide Mul;
    if n == 0 {
      MulLaws(ONE, ONE);
    } else {
      var p, q := Power(y, n - 1), Power(z, n - 1);
      PowerProduct(y, z, n - 1);
      MulAssoc(y, z, Mul(p, q));
      MulAssoc(z, p, q);
      MulLaws(z, p);
      MulAssoc(p, z, q);
      MulAssoc(y, p, Mul(z, q));
    }
  }

  lemma {:induction false} PowerOne(n: nat)
    ensures Power(ONE, n) == ONE
  {
    hide Mul;
    if n > 0 {
      PowerOne(n - 1);
      MulLaws(ONE, ONE);
    }
  }

  lemma PowerTwo(z: Complex, n: nat)
    ensures Power(z, 1) == z && Power(z, 2) == Mul(z, z) && Power(Mul(z, z), n) == Power(z, 2 * n)
  {
    hide Mul;
    MulLaws(z, z);
    assert Power(z, 1) == Mul(z, Power(z, 0));
    assert Power(z, 2) == Mul(z, Power(z, 1));
    PowerMul(z, 2, n);
  }

  // ---------- Evaluation ----------

  lemma {:induction false} EvalAppend(a: seq<Complex>, b: seq<Complex>, z: Complex)
    ensures Eval(a + b, z) == Add(Eval(a, z), Mul(Power(z, |a|), Eval(b, z)))
  {
    hide Mul, Add;
    if a == [] {
      assert a + b == b;
      MulLaws(Eval(b, z), ONE);
      AddLaws(Eval(b, z), ZERO, ZERO);
    } else {
      assert (a + b)[1..] == a[1..] + b;
      EvalAppend(a[1..], b, z);
      var p, e, f := Power(z, |a| - 1), Eval(a[1..], z), Eval(b, z);
      Distribute(z, e, Mul(p, f));
      MulAssoc(z, p, f);
      AddLaws(a[0], Mul(z, e), Mul(Mul(z, p), f));
    }
  }

  /** The first n terms x[j] * w^(j*k) of output k of the discrete Fourier transform. */
  function DftSum(x: seq<Complex>, w: Complex, k: nat, n: nat): Complex
    requires n <= |x|
  {
    if n == 0 then ZERO
    else
      PowerMul(w, k, n - 1);
      Add(DftSum(x, w, k, n - 1), Mul(x[n - 1], Power(w, k * (n - 1))))
  }

  lemma {:induction false} EvalIsSum(x: seq<Complex>, w: Complex, k: nat, n: nat)
    requires n <= |x|
    ensures Eval(x[..n], Power(w, k)) == DftSum(x, w, k, n)
  {
    hide Mul, Add, Power;
    if n > 0 {
      var z, e := Power(w, k), x[n - 1];
      EvalIsSum(x, w, k, n - 1);
      PowerMul(w, k, n - 1);
      assert x[..n] == x[..n - 1] + [e];
      EvalAppend(x[..n - 1], [e], z);
      assert Eval([e][1..], z) == ZERO;
      MulLaws(z, ZERO);
      AddLaws(e, ZERO, ZERO);
      MulLaws(Power(z, n - 1), e);
    }
  }

  /** The transform is the textbook sum. */
  lemma TransformIsSum(x: seq<Complex>, w: Complex, k: nat)
    requires k < |x|
    ensures Transform(x, w)[k] == DftSum(x, w, k, |x|)
  {
    hide Mul, Add, Power, Eval, DftSum;
    EvalIsSum(x, w, k, |x|);
    assert x[..|x|] == x;
  }

  lemma {:induction false} EvalPairAdd(a: seq<Complex>, b: seq<Complex>, z: Complex)
    requires |a| == |b|
    ensures Eval(PairAdd(a, b), z) == Add(Eval(a, z), Eval(b, z))
  {
    hide Mul, Add;
    if a == [] {
      AddLaws(ZERO, ZERO, ZERO);
    } else {
      assert PairAdd(a, b)[1..] == PairAdd(a[1..], b[1..]);
      EvalPairAdd(a[1..], b[1..], z);
      Distribute(z, Eval(a[1..], z), Eval(b[1..], z));
      Interchange(a[0], b[0], Mul(z, Eval(a[1..], z)), Mul(z, Eval(b[1..], z)));
    }
  }

  lemma {:induction false} EvalPairSub(a: seq<Complex>, b: seq<Complex>, z: Complex)
    requires |a| == |b|
    ensures Eval(PairSub(a, b), z) == Sub(Eval(a, z), Eval(b, z))
  {
    hide Mul, Add, Sub;
    if a == [] {
      MulLaws(ZERO, ZERO);
    } else {
      assert PairSub(a, b)[1..] == PairSub(a[1..], b[1..]);
      EvalPairSub(a[1..], b[1..], z);
      Distribute(z, Eval(a[1..], z), Eval(b[1..], z));
      Interchange(a[0], b[0], Mul(z, Eval(a[1..], z)), Mul(z, Eval(b[1..], z)));
    }
  }

  lemma {:induction false} EvalScale(c: Complex, a: seq<Complex>, z: Complex)
    ensures Eval(Scale(c, a), z) == Mul(c, Eval(a, z))
  {
    hide Mul, Add;
    if a == [] {
      MulLaws(c, ZERO);
    } else {
      var e := Eval(a[1..], z);
      assert Scale(c, a)[1..] == Scale(c, a[1..]);
      EvalScale(c, a[1..], z);
      Distribute(c, a[0], Mul(z, e));
      MulAssoc(z, c, e);
      MulAssoc(c, z, e);
      MulLaws(c, z);
    }
  }

  lemma {:induction false} EvalTwist(a: seq<Complex>, w: Complex, y: Complex)
    ensures Eval(a, Mul(w, y)) == Eval(Twist(a, w), y)
  {
    hide Mul, Add;
    if a != [] {
      var t := Twist(a[1..], w);
      forall i | 0 <= i < |t|
        ensures Twist(a, w)[1..][i] == Scale(w, t)[i]
      {
        MulAssoc(w, Power(w, i), a[i + 1]);
      }
      assert Twist(a, w)[1..] == Scale(w, t);
      EvalScale(w, t, y);
      EvalTwist(a[1..], w, y);
      MulLaws(a[0], ONE);
      MulLaws(w, y);
      MulAssoc(y, w, Eval(t, y));
    }
  }

  // ---------- The radix-2 split ----------

  /** The even outputs of a transform of size 2n are a transform of the sums of opposite inputs, the odd
      outputs one of their twisted differences. */
  lemma Split(a: seq<Complex>, n: nat, r: Complex, q: nat)
    requires |a| == 2 * n && Power(r, n) == MINUS_ONE
    ensures Eval(a, Power(r, 2 * q)) == Eval(PairAdd(a[..n], a[n..]), Power(Mul(r, r), q))
    ensures Eval(a, Power(r, 2 * q + 1)) == Eval(Twist(PairSub(a[..n], a[n..]), r), Power(Mul(r, r), q))
  {
    hide Mul, Add, Sub;
    var lo, hi := a[..n], a[n..];
    assert a == lo + hi;
    PowerTwo(r, q);
    SignOfPower(r, n, 2 * q);
    SignOfPower(r, n, 2 * q + 1);
    var even, odd := Power(r, 2 * q), Power(r, 2 * q + 1);
    EvalAppend(lo, hi, even);
    EvalPairAdd(lo, hi, even);
    MulLaws(Eval(hi, even), ONE);
    EvalAppend(lo, hi, odd);
    EvalPairSub(lo, hi, odd);
    MulLaws(Eval(hi, odd), Eval(lo, odd));
    EvalTwist(PairSub(lo, hi), r, even);
  }

  /** (r^e)^n is 1 for even e and -1 for odd e. */
  lemma SignOfPower(r: Complex, n: nat, e: nat)
    requires Power(r, n) == MINUS_ONE
    ensures Power(Power(r, e), n) == if e % 2 == 0 then ONE else MINUS_ONE
  {
    hide Mul;
    PowerMul(r, e, n);
    PowerMul(r, n, e);
    assert e * n == n * e;
    MinusOnePower(e);
  }

  lemma {:induction false} MinusOnePower(e: nat)
    ensures Power(MINUS_ONE, e) == if e % 2 == 0 then ONE else MINUS_ONE
  {
    hide Mul;
    if e > 0 {
      MinusOnePower(e - 1);
      MulLaws(MINUS_ONE, ONE);
      MulLaws(ONE, MINUS_ONE);
    }
  }

  // ---------- Roots of unity ----------

  function Exp2(m: nat): (r: nat)
    ensures r >= 1
  {
    if m == 0 then 1 else 2 * Exp2(m - 1)
  }

  /** root(t) is a primitive 2^t-th root of unity for t <= m: each is a square root of the one before. */
  ghost predicate Roots(root: nat -> Complex, m: nat) {
    && root(0) == ONE
    && (m >= 1 ==> root(1) == MINUS_ONE)
    && forall t: nat {:trigger root(t + 1)} :: t < m ==> Mul(root(t + 1), root(t + 1)) == root(t)
  }

  lemma RootSquared(root: nat -> Complex, m: nat, t: nat)
    requires Roots(root, m) && t < m
    ensures Mul(root(t + 1), root(t + 1)) == root(t)
  {
  }

  /** root(t+1)^(2^t) is -1. */
  lemma {:induction false} HalfTurn(root: nat -> Complex, m: nat, t: nat)
    requires Roots(root, m) && t < m
    ensures Power(root(t + 1), Exp2(t)) == MINUS_ONE
  {
    hide Mul;
    if t == 0 {
      PowerTwo(root(1), 0);
    } else {
      HalfTurn(root, m, t - 1);
      PowerTwo(root(t + 1), Exp2(t - 1));
    }
  }

  /** root(t)^(2^t) is 1. */
  lemma FullTurn(root: nat -> Complex, m: nat, t: nat)
    requires Roots(root, m) && t <= m
    ensures Power(root(t), Exp2(t)) == ONE
  {
    hide Mul;
    if t == 0 {
      PowerTwo(ONE, 0);
    } else {
      HalfTurn(root, m, t - 1);
      PowerAdd(root(t), Exp2(t - 1), Exp2(t - 1));
      MulLaws(ONE, ONE);
    }
  }

  // ---------- Inversion ----------

  function Evens(x: seq<Complex>): seq<Complex> {
    seq(|x| / 2, q requires 0 <= q < |x| / 2 => x[2 * q])
  }

  function Odds(x: seq<Complex>): seq<Complex> {
    seq(|x| / 2, q requires 0 <= q < |x| / 2 => x[2 * q + 1])
  }

  lemma {:induction false} EvalInterleave(x: seq<Complex>, v: Complex)
    requires |x| % 2 == 0
    ensures Eval(x, v) == Add(Eval(Evens(x), Mul(v, v)), Mul(v, Eval(Odds(x), Mul(v, v))))
  {
    hide Mul, Add;
    if x == [] {
      MulLaws(v, v);
      AddLaws(ZERO, ZERO, ZERO);
    } else {
      var y, s := x[2..], Mul(v, v);
      EvalInterleave(y, v);
      assert x[1..][1..] == y;
      assert Evens(x)[1..] == Evens(y) && Odds(x)[1..] == Odds(y);
      var e, o := Eval(Evens(y), s), Eval(Odds(y), s);
      MulAssoc(v, v, Add(e, Mul(v, o)));
      Distribute(v, x[1], Mul(v, Add(e, Mul(v, o))));
      Distribute(s, e, Mul(v, o));
      MulAssoc(s, v, o);
      MulAssoc(v, s, o);
      MulLaws(s, v);
      Distribute(v, x[1], Mul(s, o));
      Interchange(x[0], Mul(s, e), Mul(v, x[1]), Mul(v, Mul(s, o)));
      AddLaws(x[0], Mul(v, x[1]), Add(Mul(s, e), Mul(v, Mul(s, o))));
    }
  }

  ghost predicate Inverses(root: nat -> Complex, inverse: nat -> Complex, m: nat) {
    forall t: nat {:trigger root(t)} {:trigger inverse(t)} :: t <= m ==> Mul(inverse(t), root(t)) == ONE
  }

  /** The split, for the whole spectrum. */
  lemma SplitSpectrum(x: seq<Complex>, n: nat, r: Complex)
    requires |x| == 2 * n && Power(r, n) == MINUS_ONE
    ensures Evens(Transform(x, r)) == Transform(PairAdd(x[..n], x[n..]), Mul(r, r))
    ensures Odds(Transform(x, r)) == Transform(Twist(PairSub(x[..n], x[n..]), r), Mul(r, r))
  {
    hide Mul, Add, Sub, Eval, Power;
    var X, s := Transform(x, r), Mul(r, r);
    var e, o := PairAdd(x[..n], x[n..]), Twist(PairSub(x[..n], x[n..]), r);
    hide PairAdd, PairSub, Twist;
    forall q: nat {:trigger Power(s, q)} | q < n
      ensures X[2 * q] == Eval(e, Power(s, q)) && X[2 * q + 1] == Eval(o, Power(s, q))
    {
      Split(x, n, r, q);
    }
    assert Evens(X) == Transform(e, s);
    assert Odds(X) == Transform(o, s);
  }

  /** Transforming with a root and then with its inverse multiplies by the size. */
  lemma {:induction false} Inversion(x: seq<Complex>, m: nat, root: nat -> Complex, inverse: nat -> Complex)
    requires |x| == Exp2(m) && Roots(root, m) && Roots(inverse, m) && Inverses(root, inverse, m)
    ensures Transform(Transform(x, root(m)), inverse(m)) == Scale(FromInt(Exp2(m)), x)
    decreases m
  {
    hide Mul, Add, Sub, FromInt, Eval, Power;
    if m == 0 {
      Single(x, root(0), inverse(0));
    } else {
      var n, X := Exp2(m - 1), Transform(x, root(m));
      var even, odd := PairAdd(x[..n], x[n..]), Twist(PairSub(x[..n], x[n..]), root(m));
      HalfTurn(root, m, m - 1);
      SplitSpectrum(x, n, root(m));
      Inversion(even, m - 1, root, inverse);
      Inversion(odd, m - 1, root, inverse);
      HalfTurn(inverse, m, m - 1);
      FullTurn(inverse, m, m - 1);
      CombineHalves(x, n, root(m), inverse(m));
    }
  }

  /** If the halves of the spectrum invert to the sums and twisted differences, the whole inverts to x. */
  lemma CombineHalves(x: seq<Complex>, n: nat, r: Complex, v: Complex)
    requires |x| == 2 * n && Mul(v, r) == ONE && Power(v, n) == MINUS_ONE && Power(Mul(v, v), n) == ONE
    requires Transform(Evens(Transform(x, r)), Mul(v, v)) == Scale(FromInt(n), PairAdd(x[..n], x[n..]))
    requires Transform(Odds(Transform(x, r)), Mul(v, v)) == Scale(FromInt(n), Twist(PairSub(x[..n], x[n..]), r))
    ensures Transform(Transform(x, r), v) == Scale(FromInt(2 * n), x)
  {
    hide Mul, Add, Sub, FromInt, Eval, Power;
    var X, s, c := Transform(x, r), Mul(v, v), FromInt(n);
    forall k: nat | k < 2 * n
      ensures Eval(X, Power(v, k)) == Mul(FromInt(2 * n), x[k])
    {
      var i := if k < n then k else k - n;
      assert Transform(Evens(X), s)[i] == Scale(c, PairAdd(x[..n], x[n..]))[i] == Mul(c, Add(x[i], x[n + i]));
      assert Transform(Odds(X), s)[i] == Scale(c, Twist(PairSub(x[..n], x[n..]), r))[i]
          == Mul(c, Mul(Power(r, i), Sub(x[i], x[n + i])));
      InversePoint(X, n, v, r, x[i], x[n + i], i);
    }
  }

  lemma Single(x: seq<Complex>, w: Complex, v: Complex)
    requires |x| == 1
    ensures Transform(Transform(x, w), v) == Scale(FromInt(1), x)
  {
    hide Mul, Add, FromInt;
    EvalSingle(x, Power(w, 0));
    EvalSingle(Transform(x, w), Power(v, 0));
    FromIntLaws(1, 1, ONE);
    MulLaws(x[0], ONE);
  }

  lemma EvalSingle(x: seq<Complex>, z: Complex)
    requires |x| == 1
    ensures Eval(x, z) == x[0]
  {
    hide Mul, Add;
    assert Eval(x[1..], z) == ZERO;
    MulLaws(z, ZERO);
    AddLaws(x[0], ZERO, ZERO);
  }

  /** One output of the inverse and its opposite, from the even and odd halves of the spectrum. */
  lemma InversePoint(X: seq<Complex>, n: nat, v: Complex, r: Complex, lo: Complex, hi: Complex, i: nat)
    requires |X| == 2 * n && i < n && Mul(v, r) == ONE
    requires Power(v, n) == MINUS_ONE && Power(Mul(v, v), n) == ONE
    requires Eval(Evens(X), Power(Mul(v, v), i)) == Mul(FromInt(n), Add(lo, hi))
    requires Eval(Odds(X), Power(Mul(v, v), i)) == Mul(FromInt(n), Mul(Power(r, i), Sub(lo, hi)))
    ensures Eval(X, Power(v, i)) == Mul(FromInt(2 * n), lo)
    ensures Eval(X, Power(v, n + i)) == Mul(FromInt(2 * n), hi)
  {
    hide Mul, Add, Sub, FromInt;
    var c, s, p, s2 := FromInt(n), Add(lo, hi), Power(v, i), Power(Mul(v, v), i);
    var d, t := Sub(lo, hi), Power(r, i);
    EvalInterleave(X, p);
    EvalInterleave(X, Power(v, n + i));
    PowerProduct(v, v, i);
    PowerProduct(v, v, n + i);
    PowerAdd(v, n, i);
    PowerAdd(Mul(v, v), n, i);
    MulLaws(s2, ONE);
    PowerProduct(v, r, i);
    PowerOne(i);
    Untwist(c, p, t, d);
    MulAssoc(MINUS_ONE, p, Mul(c, Mul(t, d)));
    MulLaws(Mul(c, d), Mul(c, s));
    Distribute(c, s, d);
    Interchange(lo, hi, lo, hi);
    FromIntLaws(0, n, lo);
    FromIntLaws(0, n, hi);
  }

  lemma Untwist(c: Complex, p: Complex, t: Complex, d: Complex)
    requires Mul(p, t) == ONE
    ensures Mul(p, Mul(c, Mul(t, d))) == Mul(c, d)
  {
    hide Mul;
    MulAssoc(p, c, Mul(t, d));
    MulLaws(p, c);
    MulAssoc(c, p, Mul(t, d));
    MulAssoc(p, t, d);
    MulLaws(d, ONE);
  }
}
