/** The FFT kernel of bomp/benchmark/ft.c on its arrays: the root table, the stages with their
    ping-pong buffers, the blocked passes along the three axes, and the transform of the whole cube. */
module Fft {
  import opened Arith
  import opened ComplexNumbers
  import opened Dft
  import opened Stockham

  // ---------- The table of roots ----------

  /** What cos and sin contribute: cis(t) = (cos t, sin t) turns sums into products, and cis(pi) = -1. */
  ghost predicate CisLaws(cis: real -> Complex, pi: real) {
    && cis(0.0) == ONE
    && cis(pi) == MINUS_ONE
    && forall s, t {:trigger Mul(cis(s), cis(t))} :: cis(s + t) == Mul(cis(s), cis(t))
  }

  function Angle(pi: real, s: nat): real {
    if s == 0 then pi else Angle(pi, s - 1) / 2.0
  }

  function RootOf(cis: real -> Complex, pi: real): nat -> Complex {
    (t: nat) => if t == 0 then ONE else cis(Angle(pi, t - 1))
  }

  lemma {:induction false} AngleIs(pi: real, s: nat)
    ensures Angle(pi, s) == pi / (Exp2(s) as real)
  {
    if s > 0 {
      AngleIs(pi, s - 1);
      var d := Exp2(s - 1) as real;
      assert Exp2(s) as real == 2.0 * d;
      assert pi / (2.0 * d) == (pi / d) / 2.0;
    } else {
      assert Exp2(0) as real == 1.0;
    }
  }

  lemma CisSum(cis: real -> Complex, pi: real, s: real, t: real)
    requires CisLaws(cis, pi)
    ensures cis(s + t) == Mul(cis(s), cis(t))
  {
    hide Mul;
  }

  lemma RootSquare(cis: real -> Complex, pi: real, t: nat)
    requires CisLaws(cis, pi)
    ensures Mul(RootOf(cis, pi)(t + 1), RootOf(cis, pi)(t + 1)) == RootOf(cis, pi)(t)
  {
    hide Mul, CisLaws, Angle;
    CisSum(cis, pi, Angle(pi, t), Angle(pi, t));
    AngleHalves(pi, t);
    CisPi(cis, pi);
    MulLaws(MINUS_ONE, ONE);
    MulLaws(ONE, MINUS_ONE);
  }

  lemma AngleHalves(pi: real, t: nat)
    ensures if t == 0 then Angle(pi, t) == pi else Angle(pi, t) + Angle(pi, t) == Angle(pi, t - 1)
  {
  }

  lemma CisPi(cis: real -> Complex, pi: real)
    requires CisLaws(cis, pi)
    ensures cis(pi) == MINUS_ONE && cis(0.0) == ONE
  {
  }

  lemma CisRoots(cis: real -> Complex, pi: real, m: nat)
    requires CisLaws(cis, pi)
    ensures Roots(RootOf(cis, pi), m)
  {
    hide Mul, CisLaws;
    var root := RootOf(cis, pi);
    CisPi(cis, pi);
    assert Angle(pi, 0) == pi;
    assert root(1) == cis(Angle(pi, 0));
    hide RootOf;
    forall t: nat {:trigger root(t + 1)} | t < m
      ensures Mul(root(t + 1), root(t + 1)) == root(t)
    {
      RootSquare(cis, pi, t);
    }
  }

  /** The angle 2*pi/2^t. */
  function Share(pi: real, t: nat): real { 2.0 * pi / (Exp2(t) as real) }

  lemma ShareIs(pi: real, t: nat)
    ensures Share(pi, t) == if t == 0 then pi + pi else Angle(pi, t - 1)
  {
    hide Angle;
    if t == 0 {
      WholeTurn(pi, Exp2(0) as real);
    } else {
      AngleIs(pi, t - 1);
      DoubleQuotient(pi, Exp2(t - 1) as real, Exp2(t) as real, Angle(pi, t - 1));
    }
  }

  /** The root for size 2^t is (cos, sin) of that angle. */
  lemma RootIsCis(cis: real -> Complex, pi: real, t: nat)
    requires CisLaws(cis, pi)
    ensures RootOf(cis, pi)(t) == cis(Share(pi, t))
  {
    hide Mul, CisLaws, Share, Angle;
    ShareIs(pi, t);
    if t == 0 {
      CisPi(cis, pi);
      CisSum(cis, pi, pi, pi);
      MulLaws(MINUS_ONE, ONE);
    }
  }

  lemma WholeTurn(p: real, e: real)
    requires e == 1.0
    ensures 2.0 * p / e == p + p
  {
  }

  lemma DoubleQuotient(p: real, d: real, e: real, q: real)
    requires d > 0.0 && e == 2.0 * d && q == p / d
    ensures q == 2.0 * p / e
  {
    assert q * d == p;
    assert q * e == 2.0 * (q * d);
    var r := 2.0 * p / e;
    assert r * e == 2.0 * p;
    assert (r - q) * e == r * e - q * e == 0.0;
  }

  /** The angle i*t, added up. */
  function Turn(i: nat, t: real): real {
    if i == 0 then 0.0 else t + Turn(i - 1, t)
  }

  lemma {:induction false} TurnIs(i: nat, t: real)
    ensures Turn(i, t) == i as real * t
  {
    if i == 0 {
      assert 0 as real * t == 0.0;
    } else {
      TurnIs(i - 1, t);
      var r := (i - 1) as real;
      assert i as real == r + 1.0;
      assert (r + 1.0) * t == r * t + t;
    }
  }

  lemma {:induction false} CisPower(cis: real -> Complex, pi: real, t: real, i: nat)
    requires CisLaws(cis, pi)
    ensures Power(cis(t), i) == cis(Turn(i, t))
  {
    hide Mul, CisLaws;
    if i == 0 {
      CisPi(cis, pi);
    } else {
      CisPower(cis, pi, t, i - 1);
      CisSum(cis, pi, t, Turn(i - 1, t));
    }
  }

  /** The inner loop of fft_init: one block of the table. */
  method FillBlock(s: nat, u: array<Complex>, cis: real -> Complex, pi: real)
    requires CisLaws(cis, pi) && 2 * Exp2(s) <= u.Length
    modifies u
    ensures Block(u[..], RootOf(cis, pi), s)
    ensures forall i {:trigger u[i]} :: 0 <= i < Exp2(s) ==> u[i] == old(u[i])
  {
    hide CisLaws, Power, Mul, Turn;
    ghost var w := RootOf(cis, pi)(s + 1);
    var ku, ln := Exp2(s), Exp2(s);
    var t := pi / (ln as real);
    AngleIs(pi, s);
    for i := 0 to ln
      invariant forall k {:trigger u[k]} :: 0 <= k < ku ==> u[k] == old(u[k])
      invariant forall p {:trigger u[p]} :: ku <= p < ku + i ==> u[p] == Power(w, p - ku)
    {
      CisPower(cis, pi, t, i);
      TurnIs(i, t);
      u[i + ku] := cis(i as real * t);
    }
    forall k: nat {:trigger Power(w, k)} | k < ku
      ensures u[..][ku + k] == Power(w, k)
    {
      assert u[ku + k] == Power(w, k);
    }
  }

  /** A block depends on nothing outside it. */
  lemma BlockFrame(u: seq<Complex>, v: seq<Complex>, root: nat -> Complex, s: nat, t: nat)
    requires Block(u, root, s) && s < t && |u| == |v| && Exp2(t) <= |u|
    requires forall i {:trigger u[i]} {:trigger v[i]} :: 0 <= i < Exp2(t) ==> v[i] == u[i]
    ensures Block(v, root, s)
  {
    Exp2Monotone(s + 1, t);
  }

  /** The angle i*pi/2^s. */
  function Corner(pi: real, s: nat, i: nat): real { i as real * (pi / (Exp2(s) as real)) }

  lemma CornerIs(pi: real, s: nat, i: nat, t: real)
    requires t == pi / (Exp2(s) as real)
    ensures Turn(i, t) == Corner(pi, s, i)
  {
    TurnIs(i, t);
  }

  /** Place i of block s holds (cos, sin) of that angle. */
  ghost predicate HoldsCis(u: seq<Complex>, cis: real -> Complex, pi: real, s: nat, i: nat) {
    Exp2(s) + i < |u| && u[Exp2(s) + i] == cis(Corner(pi, s, i))
  }

  lemma BlockIsCis(u: seq<Complex>, cis: real -> Complex, pi: real, s: nat, i: nat)
    requires CisLaws(cis, pi) && Block(u, RootOf(cis, pi), s) && i < Exp2(s)
    ensures HoldsCis(u, cis, pi, s, i)
  {
    hide CisLaws, Power, Turn, Angle, Corner;
    AngleIs(pi, s);
    assert u[Exp2(s) + i] == Power(RootOf(cis, pi)(s + 1), i);
    CisPower(cis, pi, Angle(pi, s), i);
    CornerIs(pi, s, i, Angle(pi, s));
  }

  /** Every block of the table holds the cosines and sines that it should. */
  ghost predicate CosinesAndSines(u: seq<Complex>, cis: real -> Complex, pi: real, m: nat) {
    forall s: nat, i: nat :: s < m && i < Exp2(s) ==> HoldsCis(u, cis, pi, s, i)
  }

  lemma TableIsCis(u: seq<Complex>, cis: real -> Complex, pi: real, m: nat)
    requires CisLaws(cis, pi) && forall s: nat :: s < m ==> Block(u, RootOf(cis, pi), s)
    ensures CosinesAndSines(u, cis, pi, m)
  {
    hide CisLaws, Block, RootOf, HoldsCis;
    forall s: nat, i: nat | s < m && i < Exp2(s)
      ensures HoldsCis(u, cis, pi, s, i)
    {
      BlockIsCis(u, cis, pi, s, i);
    }
  }

  /** fft_init, with m = ilog2(n). */
  method FftInit(m: nat, u: array<Complex>, cis: real -> Complex, pi: real)
    requires CisLaws(cis, pi) && u.Length >= Exp2(m)
    modifies u
    ensures Table(u[..], RootOf(cis, pi), m) && u[0] == Complex(m as real, 0.0)
    ensures CosinesAndSines(u[..], cis, pi, m)
  {
    hide CisLaws, Block, CosinesAndSines;
    CisRoots(cis, pi, m);
    u[0] := Complex(m as real, 0.0);
    for j := 0 to m
      invariant u[0] == Complex(m as real, 0.0)
      invariant forall s: nat :: s < j ==> Block(u[..], RootOf(cis, pi), s)
    {
      Exp2Monotone(j + 1, m);
      ghost var before := u[..];
      FillBlock(j, u, cis, pi);
      forall s: nat | s < j
        ensures Block(u[..], RootOf(cis, pi), s)
      {
        BlockFrame(before, u[..], RootOf(cis, pi), s, j);
      }
    }
    TableIsCis(u[..], cis, pi, m);
  }

  lemma {:induction false} Exp2Monotone(a: nat, b: nat)
    ensures a <= b ==> Exp2(a) <= Exp2(b)
    ensures a < b ==> Exp2(a) < Exp2(b)
  {
    if a < b {
      Exp2Monotone(a, b - 1);
    }
  }

  /** ilog2: the least lg with 2^lg >= n. */
  method Ilog2(n: nat) returns (lg: nat)
    requires n >= 1
    ensures Exp2(lg) >= n && (lg > 0 ==> Exp2(lg - 1) < n)
    ensures forall m: nat {:trigger Exp2(m)} :: n == Exp2(m) ==> lg == m
  {
    if n == 1 {
      lg := 0;
    } else {
      lg := 1;
      var nn := 2;
      while nn < n
        invariant lg >= 1 && nn == Exp2(lg) && Exp2(lg - 1) < n
        decreases n - nn
      {
        nn := 2 * nn;
        lg := lg + 1;
      }
    }
    forall m: nat {:trigger Exp2(m)} | n == Exp2(m)
      ensures lg == m
    {
      Exp2Monotone(m, lg - if lg > 0 then 1 else 0);
      Exp2Monotone(lg, m);
    }
  }

  // ---------- One column block ----------

  /** The innermost loop of fftz2: rows base+k and base+lk+k of y, from rows i11+k and i12+k of x. */
  method ButterflyRow(ny: nat, u1: Complex, from1: nat, from2: nat, to1: nat, to2: nat, x: array2<Complex>,
                      y: array2<Complex>)
    requires x != y && from1 < x.Length0 && from2 < x.Length0 && to1 < to2 < y.Length0 && ny <= x.Length1
    requires ny <= y.Length1
    modifies y
    ensures forall p, j {:trigger y[p, j]} :: 0 <= p < y.Length0 && 0 <= j < y.Length1 ==>
              y[p, j] == if j < ny && p == to1 then Add(x[from1, j], x[from2, j])
                         else if j < ny && p == to2 then Mul(u1, Sub(x[from1, j], x[from2, j]))
                         else old(y[p, j])
  {
    hide Add, Sub, Mul;
    for j := 0 to ny
      invariant forall p, j' {:trigger y[p, j']} :: 0 <= p < y.Length0 && 0 <= j' < y.Length1 ==>
                  y[p, j'] == if j' < j && p == to1 then Add(x[from1, j'], x[from2, j'])
                              else if j' < j && p == to2 then Mul(u1, Sub(x[from1, j'], x[from2, j']))
                              else old(y[p, j'])
    {
      var x11, x21 := x[from1, j], x[from2, j];
      y[to1, j] := Add(x11, x21);
      y[to2, j] := Mul(u1, Sub(x11, x21));
    }
  }

  /** cols is what the first |cols| columns of x hold. */
  ghost predicate Holds2(x: array2<Complex>, n: nat, cols: seq<seq<Complex>>)
    reads x
  {
    && n <= x.Length0 && |cols| <= x.Length1
    && (forall j {:trigger cols[j]} :: 0 <= j < |cols| ==> |cols[j]| == n)
    && forall j: nat, p: nat {:trigger x[p, j]} {:trigger cols[j][p]} :: j < |cols| && p < n ==> x[p, j] == cols[j][p]
  }

  /** The two inner loops of fftz2: the 2*lk rows of y from base on. */
  method ButterflyBlock(sign: int, i: nat, lk: nat, li: nat, n: nat, ny: nat, u: array<Complex>, x: array2<Complex>,
                        y: array2<Complex>, ghost cols: seq<seq<Complex>>)
    requires lk >= 1 && i < li && n == 2 * (li * lk) && x != y && li + i < u.Length
    requires Holds2(x, n, cols) && |cols| == ny && n <= y.Length0 && ny <= y.Length1
    modifies y
    ensures 2 * (i * lk) >= 0 && 2 * (i * lk) + 2 * lk <= n
    ensures forall p: nat, j: nat {:trigger y[p, j]} :: p < y.Length0 && j < y.Length1 ==>
              y[p, j] == if j < ny && 2 * (i * lk) <= p < 2 * (i * lk) + 2 * lk
                         then Butterfly(cols[j], lk, u[..], sign, li, p)
                         else old(y[p, j])
  {
    hide Add, Sub, Mul, Twiddle, Butterfly;
    RowGap(i, li, lk);
    var i11 := i * lk;
    var i12 := i11 + n / 2;
    var i21 := i * (2 * lk);
    var i22 := i21 + lk;
    assert i21 == 2 * (i * lk);
    ghost var uu := u[..];
    var u1 := if sign >= 1 then u[li + i] else Conj(u[li + i]);
    TwiddleOf(uu, sign, li, i);
    for k := 0 to lk
      invariant forall p: nat, j: nat {:trigger y[p, j]} :: p < y.Length0 && j < y.Length1 ==>
                  y[p, j] == if j < ny && (i21 <= p < i21 + k || i22 <= p < i22 + k)
                             then Butterfly(cols[j], lk, uu, sign, li, p)
                             else old(y[p, j])
    {
      ButterflyRow(ny, u1, i11 + k, i12 + k, i21 + k, i22 + k, x, y);
      forall j: nat {:trigger cols[j]} | j < ny
        ensures Butterfly(cols[j], lk, uu, sign, li, i21 + k) == Add(x[i11 + k, j], x[i12 + k, j])
        ensures Butterfly(cols[j], lk, uu, sign, li, i22 + k) == Mul(u1, Sub(x[i11 + k, j], x[i12 + k, j]))
      {
        ButterflyAt(cols[j], lk, uu, sign, li, i, k);
        assert cols[j][i11 + k] == x[i11 + k, j] && cols[j][i12 + k] == x[i12 + k, j];
      }
    }
  }

  /** fftz2: stage l of m, reading x and writing y, for the first ny columns. */
  method Fftz2(sign: int, l: nat, m: nat, n: nat, ny: nat, u: array<Complex>, x: array2<Complex>, y: array2<Complex>,
               ghost cols: seq<seq<Complex>>)
    requires 1 <= l <= m && n == Exp2(m) && x != y && 2 * Exp2(m - l) <= u.Length
    requires Holds2(x, n, cols) && |cols| == ny && n <= y.Length0 && ny <= y.Length1
    modifies y
    ensures Exp2(m) == 2 * (Exp2(m - l) * Exp2(l - 1))
    ensures Holds2(y, n, StageAll(cols, Exp2(l - 1), u[..], sign, Exp2(m - l)))
    ensures forall p: nat, j: nat {:trigger y[p, j]} :: p < y.Length0 && j < y.Length1 && (p >= n || j >= ny) ==>
              y[p, j] == old(y[p, j])
  {
    hide Butterfly;
    StageSizes(l, m);
    var lk := if l - 1 == 0 then 1 else 2 * Exp2(l - 2);
    var li := if m - l == 0 then 1 else 2 * Exp2(m - l - 1);
    ghost var uu := u[..];
    for i := 0 to li
      invariant Holds2(x, n, cols)
      invariant forall p: nat, j: nat {:trigger y[p, j]} :: p < y.Length0 && j < y.Length1 ==>
                  y[p, j] == if j < ny && p < n && p < 2 * (i * lk)
                             then Butterfly(cols[j], lk, uu, sign, li, p)
                             else old(y[p, j])
    {
      assert (i + 1) * lk == i * lk + lk;
      ButterflyBlock(sign, i, lk, li, n, ny, u, x, y, cols);
    }
  }

  lemma TwiddleOf(u: seq<Complex>, sign: int, li: nat, i: nat)
    requires li + i < |u|
    ensures Twiddle(u, sign, li, i) == if sign >= 1 then u[li + i] else Conj(u[li + i])
  {
  }

  // ---------- The two directions ----------

  /** The roots in use: as tabulated for sign = 1, conjugated for sign = -1. */
  function Signed(root: nat -> Complex, sign: int): nat -> Complex {
    if sign >= 1 then root else (t: nat) => Conj(root(t))
  }

  lemma {:induction false} ConjPower(z: Complex, i: nat)
    ensures Conj(Power(z, i)) == Power(Conj(z), i)
  {
    if i > 0 {
      ConjPower(z, i - 1);
      ConjMul(z, Power(z, i - 1));
    }
  }

  lemma SignedRoots(root: nat -> Complex, sign: int, m: nat)
    requires Roots(root, m)
    ensures Roots(Signed(root, sign), m)
  {
    hide Mul;
    if sign < 1 {
      var conj := Signed(root, sign);
      forall t: nat {:trigger conj(t + 1)} | t < m
        ensures Mul(conj(t + 1), conj(t + 1)) == conj(t)
      {
        ConjMul(root(t + 1), root(t + 1));
      }
    }
  }

  lemma SignedTwiddles(u: seq<Complex>, root: nat -> Complex, mx: nat, sign: int, m: nat)
    requires Table(u, root, mx) && m <= mx
    ensures forall s: nat, i: nat {:trigger Twiddle(u, sign, Exp2(s), i)} :: s < m && i < Exp2(s) ==>
              Twiddle(u, sign, Exp2(s), i) == Power(Signed(root, sign)(s + 1), i)
  {
    hide Power, Conj;
    forall s: nat, i: nat {:trigger Twiddle(u, sign, Exp2(s), i)} | s < m && i < Exp2(s)
      ensures Twiddle(u, sign, Exp2(s), i) == Power(Signed(root, sign)(s + 1), i)
    {
      assert Block(u, root, s);
      ConjPower(root(s + 1), i);
    }
  }

  function Norm(z: Complex): real { z.re * z.re + z.im * z.im }

  lemma NormSquare(z: Complex)
    ensures Norm(Mul(z, z)) == Norm(z) * Norm(z) && Norm(z) >= 0.0
  {
    var a, b := z.re * z.re, z.im * z.im;
    var c := z.re * z.im;
    assert c * c == a * b;
    assert Mul(z, z).re == a - b && Mul(z, z).im == c + c;
    assert (a - b) * (a - b) + (c + c) * (c + c) == (a + b) * (a + b);
  }

  /** Every tabulated root has modulus one, because its repeated squares end at 1. */
  lemma {:induction false} UnitModulus(root: nat -> Complex, m: nat, t: nat)
    requires Roots(root, m) && t <= m
    ensures Norm(root(t)) == 1.0 && Mul(root(t), Conj(root(t))) == ONE == Mul(Conj(root(t)), root(t))
  {
    hide Mul, Norm;
    if t == 0 {
      NormOne();
    } else {
      UnitModulus(root, m, t - 1);
      NormSquare(root(t));
      var s := t - 1;
      assert Mul(root(s + 1), root(s + 1)) == root(s);
      SquareOne(Norm(root(t)));
    }
    MulConjNorm(root(t));
    MulLaws(root(t), Conj(root(t)));
  }

  lemma NormOne()
    ensures Norm(ONE) == 1.0
  {
  }

  lemma MulConjNorm(z: Complex)
    ensures Mul(z, Conj(z)) == Complex(Norm(z), 0.0)
  {
    MulConj(z);
  }

  lemma SquareOne(r: real)
    requires r * r == 1.0 && r >= 0.0
    ensures r == 1.0
  {
    assert r > 1.0 ==> r * r > r;
    assert r < 1.0 ==> r * r <= r;
  }

  lemma SignedInverses(root: nat -> Complex, m: nat)
    requires Roots(root, m)
    ensures Inverses(Signed(root, 1), Signed(root, -1), m)
  {
    hide Mul;
    forall t: nat | t <= m
      ensures Mul(Signed(root, -1)(t), Signed(root, 1)(t)) == ONE
    {
      UnitModulus(root, m, t);
    }
  }

  function TransformAll(cols: seq<seq<Complex>>, w: Complex): (r: seq<seq<Complex>>)
    ensures |r| == |cols|
  {
    seq(|cols|, j requires 0 <= j < |cols| => Transform(cols[j], w))
  }

  /** The transforms with is = 1 and then with is = -1 multiply every column by its length. */
  lemma ColumnsRoundTrip(cols: seq<seq<Complex>>, m: nat, root: nat -> Complex, mx: nat, j: nat)
    requires Roots(root, mx) && m <= mx && j < |cols| && |cols[j]| == Exp2(m)
    ensures TransformAll(TransformAll(cols, Signed(root, 1)(m)), Signed(root, -1)(m))[j]
              == Scale(FromInt(Exp2(m)), cols[j])
  {
    hide Eval, Power, Mul, FromInt, Signed;
    SignedRootsUpTo(root, 1, mx, m);
    SignedRootsUpTo(root, -1, mx, m);
    SignedInverses(root, mx);
    Inversion(cols[j], m, Signed(root, 1), Signed(root, -1));
  }

  /** One stage, from the columns after l-1 stages to the columns after l. */
  method NextStage(sign: int, l: nat, m: nat, n: nat, ny: nat, u: array<Complex>, x: array2<Complex>,
                   y: array2<Complex>, ghost cols: seq<seq<Complex>>, ghost root: nat -> Complex, ghost mx: nat)
    requires Table(u[..], root, mx) && 1 <= l <= m <= mx && n == Exp2(m) && x != y
    requires |cols| == ny && (forall j :: 0 <= j < ny ==> |cols[j]| == n) && n <= y.Length0 && ny <= y.Length1
    requires Holds2(x, n, StagesAll(cols, l - 1, m, u[..], sign))
    modifies y
    ensures Holds2(y, n, StagesAll(cols, l, m, u[..], sign))
    ensures forall p: nat, j: nat {:trigger y[p, j]} :: p < y.Length0 && j < y.Length1 && (p >= n || j >= ny) ==>
              y[p, j] == old(y[p, j])
  {
    hide Stage, Stages, StageAll, StagesAll, Holds2;
    ghost var uu := u[..];
    assert Block(uu, root, m - l);
    StagesAllNext(cols, l, m, uu, sign);
    Fftz2(sign, l, m, n, ny, u, x, y, StagesAll(cols, l - 1, m, uu, sign));
  }

  /** cfftz: the first fftblock columns of x become their transforms; y is scratch.  A result of false
      stands for the exit on bad parameters. */
  method Cfftz(sign: int, m: nat, n: nat, fftblock: nat, u: array<Complex>, x: array2<Complex>, y: array2<Complex>,
               ghost cols: seq<seq<Complex>>, ghost root: nat -> Complex, ghost mx: nat) returns (ok: bool)
    requires u.Length >= 1 && u[0].re == mx as real && Table(u[..], root, mx)
    requires n == Exp2(m) && x != y && Holds2(x, n, cols) && |cols| == fftblock && n <= y.Length0
    requires fftblock <= y.Length1
    modifies x, y
    ensures ok <==> (sign == 1 || sign == -1) && 1 <= m <= mx
    ensures ok ==> Holds2(x, n, TransformAll(cols, Signed(root, sign)(m)))
    ensures forall p: nat, j: nat {:trigger x[p, j]} ::
              p < x.Length0 && j < x.Length1 && (!ok || p >= n || j >= fftblock) ==>
              x[p, j] == old(x[p, j])
  {
    hide Stage, Stages, Transform, TransformAll, StageAll, StagesAll, Signed, Table;
    var max := u[0].re.Floor;
    if (sign != 1 && sign != -1) || m < 1 || m > max {
      return false;
    }
    ok := true;
    ghost var uu := u[..];
    var l := 1;
    StagesAllNext(cols, 0, m, uu, sign);
    while l <= m
      invariant l % 2 == 1 && 1 <= l <= m + 1
      invariant Holds2(x, n, StagesAll(cols, l - 1, m, uu, sign))
      invariant forall p: nat, j: nat {:trigger x[p, j]} ::
                  p < x.Length0 && j < x.Length1 && (p >= n || j >= fftblock) ==>
                  x[p, j] == old(x[p, j])
    {
      NextStage(sign, l, m, n, fftblock, u, x, y, cols, root, mx);
      if l == m { break; }
      NextStage(sign, l + 1, m, n, fftblock, u, y, x, cols, root, mx);
      l := l + 2;
    }
    if m % 2 == 1 {
      CopyBack(n, fftblock, x, y, StagesAll(cols, m, m, uu, sign));
    }
    AllStagesTransform(cols, uu, root, mx, sign, m);
  }

  lemma AllStagesTransform(cols: seq<seq<Complex>>, u: seq<Complex>, root: nat -> Complex, mx: nat, sign: int, m: nat)
    requires Table(u, root, mx) && m <= mx && forall j :: 0 <= j < |cols| ==> |cols[j]| == Exp2(m)
    ensures StagesAll(cols, m, m, u, sign) == TransformAll(cols, Signed(root, sign)(m))
  {
    hide Stages, Transform, Table, Roots, Twiddle, Power;
    assert Roots(root, mx) by { TableRoots(u, root, mx); }
    SignedTwiddles(u, root, mx, sign, m);
    SignedRootsUpTo(root, sign, mx, m);
    forall j | 0 <= j < |cols|
      ensures Stages(cols[j], m, m, u, sign) == Transform(cols[j], Signed(root, sign)(m))
    {
      StagesAreTransform(cols[j], m, u, sign, Signed(root, sign));
    }
  }

  lemma TableRoots(u: seq<Complex>, root: nat -> Complex, m: nat)
    requires Table(u, root, m)
    ensures Roots(root, m)
  {
  }

  lemma SignedRootsUpTo(root: nat -> Complex, sign: int, mx: nat, m: nat)
    requires Roots(root, mx) && m <= mx
    ensures Roots(Signed(root, sign), m)
  {
    hide Mul;
    SignedRoots(root, sign, mx);
  }

  /** The final copy of y to x. */
  method CopyBack(n: nat, fftblock: nat, x: array2<Complex>, y: array2<Complex>, ghost cols: seq<seq<Complex>>)
    requires x != y && Holds2(y, n, cols) && |cols| == fftblock && n <= x.Length0 && fftblock <= x.Length1
    modifies x
    ensures Holds2(x, n, cols)
    ensures forall p: nat, j: nat {:trigger x[p, j]} :: p < x.Length0 && j < x.Length1 && (p >= n || j >= fftblock) ==>
              x[p, j] == old(x[p, j])
  {
    for j := 0 to n
      invariant forall p: nat, i: nat {:trigger x[p, i]} :: p < x.Length0 && i < x.Length1 ==>
                  x[p, i] == if p < j && i < fftblock then y[p, i] else old(x[p, i])
    {
      for i := 0 to fftblock
        invariant forall p: nat, i': nat {:trigger x[p, i']} :: p < x.Length0 && i' < x.Length1 ==>
                    x[p, i'] == if (p < j && i' < fftblock) || (p == j && i' < i) then y[p, i'] else old(x[p, i'])
      {
        x[j, i] := y[j, i];
      }
    }
  }
}
