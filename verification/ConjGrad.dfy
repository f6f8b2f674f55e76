/** conj_grad in bomp/benchmark/cg.c in exact arithmetic: the loops on the arrays compute the recurrence
    below, and on a symmetric matrix the recurrence is the conjugate gradient method. */
module ConjGrad {
  import opened Arith
  import opened Sparse

  type Vec = seq<real>
  /** The compressed rows; columns are numbered from 1. */
  type Rows = seq<seq<Entry>>

  // ---------- Linear algebra ----------

  ghost function Dot(x: Vec, y: Vec): real
    requires |x| == |y|
  {
    if x == [] then 0.0 else Dot(x[..|x| - 1], y[..|y| - 1]) + x[|x| - 1] * y[|y| - 1]
  }

  function Comb(x: real, b: real, y: real): real { x + b * y }

  ghost function Prod(a: real, b: real): real { a * b }

  /** x + b*y */
  ghost function Axpy(x: Vec, b: real, y: Vec): (r: Vec)
    requires |x| == |y|
    ensures |r| == |x|
  {
    seq(|x|, i requires 0 <= i < |x| => Comb(x[i], b, y[i]))
  }

  ghost function RowDot(es: seq<Entry>, x: Vec): real {
    if es == [] then 0.0 else
      var e := es[|es| - 1];
      RowDot(es[..|es| - 1], x) + Prod(e.val, Element(x, e.col))
  }

  ghost function MatVec(m: Rows, x: Vec): (r: Vec)
    ensures |r| == |m|
  {
    seq(|m|, j requires 0 <= j < |m| => RowDot(m[j], x))
  }

  ghost predicate Square(m: Rows) {
    forall j, k {:trigger m[j][k]} :: 0 <= j < |m| && 0 <= k < |m[j]| ==> 1 <= m[j][k].col <= |m|
  }

  /** Equal entries at (i, j) and (j, i). */
  ghost predicate Symmetric(m: Rows) {
    forall i: nat, j: nat {:trigger ColSum(m[i], j + 1)} :: i < |m| && j < |m| ==>
         ColSum(m[i], j + 1) == ColSum(m[j], i + 1)
  }

  lemma {:induction false} DotSymmetric(x: Vec, y: Vec)
    requires |x| == |y|
    ensures Dot(x, y) == Dot(y, x)
  {
    if x != [] {
      DotSymmetric(x[..|x| - 1], y[..|y| - 1]);
    }
  }

  lemma {:induction false} DotAxpy(x: Vec, b: real, y: Vec, w: Vec)
    requires |x| == |y| == |w|
    ensures Dot(Axpy(x, b, y), w) == Dot(x, w) + b * Dot(y, w)
  {
    if x == [] {
      assert b * 0.0 == 0.0;
    } else {
      var n := |x| - 1;
      assert Axpy(x, b, y)[..n] == Axpy(x[..n], b, y[..n]);
      DotAxpy(x[..n], b, y[..n], w[..n]);
      Expand(x[n], b, y[n], w[n], Dot(y[..n], w[..n]));
    }
  }

  lemma Expand(x: real, b: real, y: real, w: real, d: real)
    ensures Comb(x, b, y) * w + b * d == x * w + b * (d + y * w)
  {
    assert (x + b * y) * w == x * w + b * (y * w);
  }

  lemma {:induction false} RowDotAxpy(es: seq<Entry>, x: Vec, b: real, y: Vec)
    requires |x| == |y|
    ensures RowDot(es, Axpy(x, b, y)) == Comb(RowDot(es, x), b, RowDot(es, y))
  {
    if es == [] {
      assert b * 0.0 == 0.0;
    } else {
      var e, pre := es[|es| - 1], es[..|es| - 1];
      hide Axpy, Element, Comb, Prod;
      RowDotAxpy(pre, x, b, y);
      ElementAxpy(x, b, y, e.col);
      RowStep(RowDot(pre, x), RowDot(pre, y), b, Element(x, e.col), Element(y, e.col), e.val);
    }
  }

  ghost function Element(x: Vec, c: int): real { if 1 <= c <= |x| then x[c - 1] else 0.0 }

  lemma ElementAxpy(x: Vec, b: real, y: Vec, c: int)
    requires |x| == |y|
    ensures Element(Axpy(x, b, y), c) == Comb(Element(x, c), b, Element(y, c))
  {
    assert b * 0.0 == 0.0;
  }

  lemma RowStep(dx: real, dy: real, b: real, x: real, y: real, v: real)
    ensures Comb(dx, b, dy) + Prod(v, Comb(x, b, y)) == Comb(dx + Prod(v, x), b, dy + Prod(v, y))
  {
    Expand(x, b, y, v, dy);
  }

  lemma MatVecAxpy(m: Rows, x: Vec, b: real, y: Vec)
    requires |x| == |y| == |m|
    ensures MatVec(m, Axpy(x, b, y)) == Axpy(MatVec(m, x), b, MatVec(m, y))
  {
    forall j | 0 <= j < |m|
      ensures MatVec(m, Axpy(x, b, y))[j] == Axpy(MatVec(m, x), b, MatVec(m, y))[j]
    {
      RowDotAxpy(m[j], x, b, y);
    }
  }

  // ---------- A symmetric matrix is self-adjoint ----------

  /** The row times x, column by column. */
  ghost function ByColumn(es: seq<Entry>, x: Vec): real {
    if x == [] then 0.0 else ByColumn(es, x[..|x| - 1]) + Prod(ColSum(es, |x|), x[|x| - 1])
  }

  lemma {:induction false} ByColumnAppend(es: seq<Entry>, e: Entry, x: Vec)
    ensures ByColumn(es + [e], x) == ByColumn(es, x) + e.val * (if 1 <= e.col <= |x| then x[e.col - 1] else 0.0)
  {
    hide ColSum;
    if x != [] {
      var n := |x| - 1;
      ByColumnAppend(es, e, x[..n]);
      ColSumAppend(es, e, |x|);
      ScaleStep(ColSum(es, |x|), if e.col == |x| then e.val else 0.0, ColSum(es + [e], |x|), x[n]);
    }
  }

  lemma {:induction false} ByColumnEmpty(x: Vec)
    ensures ByColumn([], x) == 0.0
  {
    if x != [] {
      ByColumnEmpty(x[..|x| - 1]);
    }
  }

  lemma {:induction false} RowDotByColumn(es: seq<Entry>, x: Vec)
    ensures RowDot(es, x) == ByColumn(es, x)
  {
    if es == [] {
      ByColumnEmpty(x);
    } else {
      var n := |es| - 1;
      RowDotByColumn(es[..n], x);
      assert es == es[..n] + [es[n]];
      ByColumnAppend(es[..n], es[n], x);
    }
  }

  /** The quadratic form over the first rows and columns: x against the rows, y against the columns. */
  ghost function Form(m: Rows, x: Vec, y: Vec): real
    requires |x| <= |m|
  {
    if x == [] then 0.0 else Form(m, x[..|x| - 1], y) + Prod(x[|x| - 1], ByColumn(m[|x| - 1], y))
  }

  lemma {:induction false} FormIsDot(m: Rows, x: Vec, y: Vec)
    requires |x| <= |m|
    ensures Form(m, x, y) == Dot(x, MatVec(m, y)[..|x|])
  {
    if x != [] {
      var n := |x| - 1;
      FormIsDot(m, x[..n], y);
      RowDotByColumn(m[n], y);
      assert MatVec(m, y)[..|x|][..n] == MatVec(m, y)[..n];
    }
  }

  /** One more column. */
  lemma {:induction false} FormColumn(m: Rows, x: Vec, y: Vec)
    requires |x| <= |m| && y != [] && |y| <= |m| && Symmetric(m)
    ensures Form(m, x, y) == Form(m, x, y[..|y| - 1]) + Prod(y[|y| - 1], ByColumn(m[|y| - 1], x))
  {
    var k := |y| - 1;
    if x == [] {
      assert y[k] * 0.0 == 0.0;
    } else {
      var n := |x| - 1;
      assert ColSum(m[n], k + 1) == ColSum(m[k], n + 1);
      hide ColSum, Prod, Symmetric;
      FormColumn(m, x[..n], y);
      CrossTerm(x[n], ByColumn(m[n], y[..k]), ColSum(m[n], k + 1), y[k], ByColumn(m[k], x[..n]));
    }
  }

  lemma CrossTerm(x: real, b: real, s: real, y: real, c: real)
    ensures Prod(x, b + Prod(s, y)) + Prod(y, c) == Prod(x, b) + Prod(y, c + Prod(s, x))
  {
    assert x * (b + s * y) == x * b + x * (s * y);
    assert y * (c + s * x) == y * c + y * (s * x);
    assert x * (s * y) == y * (s * x);
  }

  lemma {:induction false} FormSymmetric(m: Rows, x: Vec, y: Vec)
    requires |x| <= |m| && |y| <= |m| && Symmetric(m)
    ensures Form(m, x, y) == Form(m, y, x)
  {
    hide Symmetric, ByColumn, Prod;
    if y == [] {
      FormEmpty(m, x);
    } else {
      FormColumn(m, x, y);
      FormSymmetric(m, x, y[..|y| - 1]);
    }
  }

  lemma {:induction false} FormEmpty(m: Rows, x: Vec)
    requires |x| <= |m|
    ensures Form(m, x, []) == 0.0
  {
    if x != [] {
      FormEmpty(m, x[..|x| - 1]);
      assert x[|x| - 1] * 0.0 == 0.0;
    }
  }

  lemma SelfAdjoint(m: Rows, x: Vec, y: Vec)
    requires |x| == |y| == |m| && Symmetric(m)
    ensures Dot(x, MatVec(m, y)) == Dot(MatVec(m, x), y)
  {
    FormIsDot(m, x, y);
    FormIsDot(m, y, x);
    FormSymmetric(m, x, y);
    assert MatVec(m, y)[..|x|] == MatVec(m, y) && MatVec(m, x)[..|y|] == MatVec(m, x);
    DotSymmetric(y, MatVec(m, x));
  }

  // ---------- The recurrence ----------

  datatype Cg = Cg(z: Vec, r: Vec, p: Vec, rho: real)

  ghost function Curvature(m: Rows, s: Cg): real
    requires |s.p| == |m|
  {
    Dot(s.p, MatVec(m, s.p))
  }

  ghost predicate Shaped(m: Rows, s: Cg) {
    |s.z| == |s.r| == |s.p| == |m|
  }

  /** One pass of the loop; both divisors are nonzero. */
  ghost function Pass(m: Rows, s: Cg): (t: Cg)
    requires Shaped(m, s) && s.rho != 0.0 && Curvature(m, s) != 0.0
    ensures Shaped(m, t)
  {
    var q := MatVec(m, s.p);
    var alpha := s.rho / Dot(s.p, q);
    var r := Axpy(s.r, -alpha, q);
    var rho := Dot(r, r);
    Cg(Axpy(s.z, alpha, s.p), r, Axpy(r, rho / s.rho, s.p), rho)
  }

  ghost function Start0(x: Vec): Cg {
    Cg(seq(|x|, _ => 0.0), x, x, Dot(x, x))
  }

  /** No divisor vanishes in the first k passes. */
  ghost predicate Regular(m: Rows, x: Vec, k: nat)
    requires |x| == |m|
    decreases k, 0
  {
    k == 0 || (Regular(m, x, k - 1) && After(m, x, k - 1).rho != 0.0 && Curvature(m, After(m, x, k - 1)) != 0.0)
  }

  /** The state after k passes. */
  ghost function After(m: Rows, x: Vec, k: nat): (s: Cg)
    requires |x| == |m| && Regular(m, x, k)
    ensures Shaped(m, s)
    decreases k, 1
  {
    if k == 0 then Start0(x) else Pass(m, After(m, x, k - 1))
  }

  ghost function R(m: Rows, x: Vec, k: nat): (v: Vec)
    requires |x| == |m| && Regular(m, x, k)
    ensures |v| == |m|
  {
    After(m, x, k).r
  }

  ghost function P(m: Rows, x: Vec, k: nat): (v: Vec)
    requires |x| == |m| && Regular(m, x, k)
    ensures |v| == |m|
  {
    After(m, x, k).p
  }

  /** Matrix times direction. */
  ghost function AP(m: Rows, x: Vec, k: nat): (v: Vec)
    requires |x| == |m| && Regular(m, x, k)
    ensures |v| == |m|
  {
    MatVec(m, P(m, x, k))
  }

  ghost function Alpha(m: Rows, x: Vec, k: nat): real
    requires |x| == |m| && Regular(m, x, k + 1)
  {
    After(m, x, k).rho / Curvature(m, After(m, x, k))
  }

  ghost function Beta(m: Rows, x: Vec, k: nat): real
    requires |x| == |m| && Regular(m, x, k + 1)
  {
    After(m, x, k + 1).rho / After(m, x, k).rho
  }

  lemma {:induction false} RegularBefore(m: Rows, x: Vec, i: nat, k: nat)
    requires |x| == |m| && Regular(m, x, k) && i <= k
    ensures Regular(m, x, i)
  {
    if i < k {
      RegularBefore(m, x, i, k - 1);
    }
  }

  /** The four equations of a pass. */
  lemma PassEquations(m: Rows, x: Vec, k: nat)
    requires |x| == |m| && Regular(m, x, k + 1)
    ensures Regular(m, x, k)
    ensures R(m, x, k + 1) == Axpy(R(m, x, k), -Alpha(m, x, k), AP(m, x, k))
    ensures P(m, x, k + 1) == Axpy(R(m, x, k + 1), Beta(m, x, k), P(m, x, k))
    ensures After(m, x, k + 1).z == Axpy(After(m, x, k).z, Alpha(m, x, k), P(m, x, k))
    ensures After(m, x, k + 1).rho == Dot(R(m, x, k + 1), R(m, x, k + 1))
    ensures After(m, x, k).rho != 0.0 && Dot(P(m, x, k), AP(m, x, k)) != 0.0
    ensures Alpha(m, x, k) != 0.0 && Alpha(m, x, k) * Dot(P(m, x, k), AP(m, x, k)) == After(m, x, k).rho
    ensures Beta(m, x, k) * After(m, x, k).rho == After(m, x, k + 1).rho
  {
    hide Dot, Axpy, MatVec;
  }

  lemma RhoIsDot(m: Rows, x: Vec, k: nat)
    requires |x| == |m| && Regular(m, x, k)
    ensures After(m, x, k).rho == Dot(R(m, x, k), R(m, x, k))
  {
    hide Dot, Axpy, MatVec;
  }

  /** The recurrence residual is the true residual. */
  lemma {:induction false} TrueResidual(m: Rows, x: Vec, k: nat)
    requires |x| == |m| && Regular(m, x, k)
    ensures R(m, x, k) == Axpy(x, -1.0, MatVec(m, After(m, x, k).z))
  {
    if k == 0 {
      hide Axpy, MatVec;
      StartResidual(m, x);
    } else {
      hide Dot, Axpy, MatVec, After, Alpha, Beta, R;
      RegularBefore(m, x, k - 1, k);
      TrueResidual(m, x, k - 1);
      ResidualKeeps(m, x, k - 1);
    }
  }

  lemma ResidualKeeps(m: Rows, x: Vec, k: nat)
    requires |x| == |m| && Regular(m, x, k + 1) && Regular(m, x, k)
    requires R(m, x, k) == Axpy(x, -1.0, MatVec(m, After(m, x, k).z))
    ensures R(m, x, k + 1) == Axpy(x, -1.0, MatVec(m, After(m, x, k + 1).z))
  {
    PassEquations(m, x, k);
    hide Dot, Axpy, MatVec, After, Alpha, Beta, Regular, R;
    var z, a, p, q := After(m, x, k).z, Alpha(m, x, k), P(m, x, k), AP(m, x, k);
    MatVecAxpy(m, z, a, p);
    ResidualAlgebra(x, MatVec(m, z), a, q);
  }

  lemma StartResidual(m: Rows, x: Vec)
    requires |x| == |m|
    ensures x == Axpy(x, -1.0, MatVec(m, Start0(x).z))
  {
    forall j | 0 <= j < |m|
      ensures Axpy(x, -1.0, MatVec(m, Start0(x).z))[j] == x[j]
    {
      RowDotZero(m[j], Start0(x).z);
      assert Comb(x[j], -1.0, 0.0) == x[j];
    }
  }

  lemma {:induction false} RowDotZero(es: seq<Entry>, z: Vec)
    requires forall i {:trigger z[i]} :: 0 <= i < |z| ==> z[i] == 0.0
    ensures RowDot(es, z) == 0.0
  {
    if es != [] {
      RowDotZero(es[..|es| - 1], z);
      assert es[|es| - 1].val * 0.0 == 0.0;
    }
  }

  lemma ResidualAlgebra(x: Vec, y: Vec, a: real, q: Vec)
    requires |x| == |y| == |q|
    ensures Axpy(Axpy(x, -1.0, y), -a, q) == Axpy(x, -1.0, Axpy(y, a, q))
  {
    forall i | 0 <= i < |x|
      ensures Comb(Comb(x[i], -1.0, y[i]), -a, q[i]) == Comb(x[i], -1.0, Comb(y[i], a, q[i]))
    {
      assert (-a) * q[i] == -(a * q[i]);
    }
  }

  // ---------- Orthogonality ----------

  /** Up to pass k all residuals are orthogonal and all directions conjugate. */
  ghost predicate Orthogonal(m: Rows, x: Vec, k: nat)
    requires |x| == |m| && Regular(m, x, k)
  {
    forall i: nat, j: nat {:trigger Pair(m, x, k, i, j)} :: i < j <= k ==> Pair(m, x, k, i, j)
  }

  ghost predicate Pair(m: Rows, x: Vec, k: nat, i: nat, j: nat)
    requires |x| == |m| && Regular(m, x, k) && i < j <= k
  {
    RegularBefore(m, x, i, k);
    RegularBefore(m, x, j, k);
    Dot(R(m, x, i), R(m, x, j)) == 0.0 && Dot(P(m, x, i), AP(m, x, j)) == 0.0
  }

  /** r_i against A*p_k: zero for earlier residuals, the curvature for the current one. */
  lemma ResidualDirection(m: Rows, x: Vec, k: nat, i: nat)
    requires |x| == |m| && Regular(m, x, k) && Orthogonal(m, x, k) && i <= k
    ensures Regular(m, x, i)
    ensures Dot(R(m, x, i), AP(m, x, k)) == if i < k then 0.0 else Dot(P(m, x, k), AP(m, x, k))
  {
    hide Dot, Axpy, MatVec, After, Alpha, Beta;
    RegularBefore(m, x, i, k);
    if i == 0 {
      FirstDirection(m, x);
      assert i < k ==> Pair(m, x, k, i, k);
    } else {
      PassEquations(m, x, i - 1);
      assert i < k ==> Pair(m, x, k, i, k);
      assert Pair(m, x, k, i - 1, k);
      DotAxpy(R(m, x, i), Beta(m, x, i - 1), P(m, x, i - 1), AP(m, x, k));
      assert Beta(m, x, i - 1) * 0.0 == 0.0;
    }
  }

  lemma FirstDirection(m: Rows, x: Vec)
    requires |x| == |m|
    ensures Regular(m, x, 0) && P(m, x, 0) == R(m, x, 0)
  {
  }

  /** The new residual is orthogonal to every earlier one. */
  lemma NewResidual(m: Rows, x: Vec, k: nat, i: nat)
    requires |x| == |m| && Regular(m, x, k + 1) && Regular(m, x, k) && Orthogonal(m, x, k) && i <= k
    ensures Regular(m, x, i) && Dot(R(m, x, i), R(m, x, k + 1)) == 0.0
  {
    hide Dot, Axpy, MatVec, After, Alpha, Beta;
    PassEquations(m, x, k);
    ResidualDirection(m, x, k, i);
    var a := Alpha(m, x, k);
    DotAxpy(R(m, x, k), -a, AP(m, x, k), R(m, x, i));
    DotSymmetric(R(m, x, i), R(m, x, k + 1));
    DotSymmetric(R(m, x, i), R(m, x, k));
    DotSymmetric(R(m, x, i), AP(m, x, k));
    RhoIsDot(m, x, k);
    if i < k {
      assert Pair(m, x, k, i, k);
      assert (-a) * 0.0 == 0.0;
    } else {
      var d := Dot(P(m, x, k), AP(m, x, k));
      assert (-a) * d == -(a * d);
    }
  }

  /** The new direction is conjugate to every earlier one. */
  lemma NewDirection(m: Rows, x: Vec, k: nat, i: nat)
    requires |x| == |m| && Symmetric(m) && Regular(m, x, k + 1) && Regular(m, x, k) && Orthogonal(m, x, k) && i <= k
    ensures Regular(m, x, i) && Dot(P(m, x, i), AP(m, x, k + 1)) == 0.0
  {
    hide Dot, Axpy, MatVec, After, Symmetric, Alpha, Beta;
    RegularBefore(m, x, i + 1, k + 1);
    PassEquations(m, x, i);
    PassEquations(m, x, k);
    var q, r, p := AP(m, x, i), R(m, x, k + 1), P(m, x, k);
    SelfAdjoint(m, P(m, x, i), P(m, x, k + 1));
    SelfAdjoint(m, P(m, x, i), p);
    DotSymmetric(q, P(m, x, k + 1));
    DotAxpy(r, Beta(m, x, k), p, q);
    DotSymmetric(r, q);
    DotSymmetric(p, q);
    // alpha_i * (A p_i . r) is (r_i - r_(i+1)) . r
    DotAxpy(R(m, x, i), -Alpha(m, x, i), q, r);
    NewResidual(m, x, k, i);
    RhoIsDot(m, x, k + 1);
    if i < k {
      NewResidual(m, x, k, i + 1);
      assert Pair(m, x, k, i, k);
      Conjugate(Alpha(m, x, i), Beta(m, x, k), Dot(q, r), 0.0, 0.0, 1.0, 0.0);
    } else {
      Conjugate(Alpha(m, x, k), Beta(m, x, k), Dot(q, r), Dot(p, q), After(m, x, k + 1).rho,
                After(m, x, k).rho, Dot(p, q));
    }
  }

  /** The scalar identity behind conjugacy. */
  lemma Conjugate(alpha: real, beta: real, qr: real, pq: real, rho': real, rho: real, d: real)
    requires alpha != 0.0 && (-alpha) * qr == rho' && pq == d
    requires rho' == 0.0 == pq || (alpha * d == rho && beta * rho == rho')
    ensures qr + beta * pq == 0.0
  {
    assert alpha * qr == -rho';
    if rho' == 0.0 && pq == 0.0 {
      assert beta * 0.0 == 0.0;
      assert qr == 0.0;
    } else {
      assert alpha * (beta * d) == beta * (alpha * d) == rho';
      assert alpha * (qr + beta * d) == 0.0;
    }
  }

  /** In exact arithmetic on a symmetric matrix, as long as no divisor vanishes, all residuals are mutually
      orthogonal and all directions conjugate. */
  lemma {:induction false} CgOrthogonality(m: Rows, x: Vec, k: nat)
    requires |x| == |m| && Symmetric(m) && Regular(m, x, k)
    ensures Orthogonal(m, x, k)
  {
    hide Dot, Axpy, MatVec, After, Symmetric, Alpha, Beta;
    if k > 0 {
      RegularBefore(m, x, k - 1, k);
      CgOrthogonality(m, x, k - 1);
      forall i: nat, j: nat {:trigger Pair(m, x, k, i, j)} | i < j <= k
        ensures Pair(m, x, k, i, j)
      {
        if j < k {
          assert Pair(m, x, k - 1, i, j);
        } else {
          NewResidual(m, x, k - 1, i);
          NewDirection(m, x, k - 1, i);
        }
      }
    }
  }

  /** Hence the residual norm that the routine recomputes at the end is the last rho of the loop. */
  lemma RecomputedNorm(m: Rows, x: Vec, k: nat)
    requires |x| == |m| && Regular(m, x, k)
    ensures var d := Axpy(x, -1.0, MatVec(m, After(m, x, k).z)); Dot(d, d) == After(m, x, k).rho
  {
    TrueResidual(m, x, k);
    RhoIsDot(m, x, k);
  }

  // ---------- The routine ----------

  /** arr[1..n] holds the vector. */
  ghost predicate Has(arr: array<real>, v: Vec)
    reads arr
  {
    |v| < arr.Length && forall j {:trigger arr[j]} :: 1 <= j <= |v| ==> arr[j] == v[j - 1]
  }

  /** The compressed arrays hold the rows m. */
  ghost predicate Stored(colidx: array<int>, a: array<real>, rowstr: array<int>, m: Rows)
    reads colidx, a, rowstr
  {
    |m| + 1 < rowstr.Length && forall j: nat {:trigger m[j]} :: j < |m| ==> StoredRow(colidx, a, rowstr, j, m[j])
  }

  ghost predicate StoredRow(colidx: array<int>, a: array<real>, rowstr: array<int>, j: nat, row: seq<Entry>)
    reads colidx, a, rowstr
    requires j + 2 < rowstr.Length
  {
    && 1 <= rowstr[j + 1] <= rowstr[j + 2] <= colidx.Length && rowstr[j + 2] <= a.Length
    && Slice(colidx[..], a[..], rowstr[j + 1], rowstr[j + 2]) == row
  }

  /** One row of the matrix-vector product. */
  method RowTimes(colidx: array<int>, a: array<real>, lo: nat, hi: nat, x: array<real>, ghost es: seq<Entry>,
                  ghost v: Vec) returns (sum: real)
    requires 1 <= lo <= hi <= colidx.Length && hi <= a.Length && Slice(colidx[..], a[..], lo, hi) == es && Has(x, v)
    requires forall k {:trigger es[k]} :: 0 <= k < |es| ==> 1 <= es[k].col <= |v|
    ensures sum == RowDot(es, v)
  {
    sum := 0.0;
    for k := lo to hi
      invariant sum == RowDot(es[..k - lo], v)
    {
      SliceAt(colidx[..], a[..], lo, hi, k);
      assert es[..k + 1 - lo] == es[..k - lo] + [es[k - lo]];
      assert es[..k + 1 - lo][..k - lo] == es[..k - lo];
      sum := sum + a[k] * x[colidx[k]];
    }
    assert es[..hi - lo] == es;
  }

  /** w = A*x */
  method Multiply(colidx: array<int>, a: array<real>, rowstr: array<int>, x: array<real>, w: array<real>, n: nat,
                  ghost m: Rows, ghost v: Vec)
    requires Stored(colidx, a, rowstr, m) && Square(m) && |m| == n == |v| && Has(x, v) && w.Length > n && w != x
    requires w != a
    modifies w
    ensures Has(w, MatVec(m, v))
  {
    for j := 1 to n + 1
      invariant forall i {:trigger w[i]} :: 1 <= i < j ==> w[i] == RowDot(m[i - 1], v)
    {
      var _ := m[j - 1];
      assert Stored(colidx, a, rowstr, m);
      assert Slice(colidx[..], a[..], rowstr[j], rowstr[j + 1]) == m[j - 1];
      var sum := RowTimes(colidx, a, rowstr[j], rowstr[j + 1], x, m[j - 1], v);
      w[j] := sum;
    }
  }

  method Copy(to: array<real>, from: array<real>, n: nat, ghost v: Vec)
    requires Has(from, v) && |v| == n < to.Length && to != from
    modifies to
    ensures Has(to, v)
  {
    for j := 1 to n + 1
      invariant forall i {:trigger to[i]} :: 1 <= i < j ==> to[i] == v[i - 1]
    {
      to[j] := from[j];
    }
  }

  method Fill(to: array<real>, n: nat)
    requires n < to.Length
    modifies to
    ensures Has(to, seq(n, _ => 0.0))
  {
    for j := 1 to n + 1
      invariant forall i {:trigger to[i]} :: 1 <= i < j ==> to[i] == 0.0
    {
      to[j] := 0.0;
    }
  }

  method Inner(x: array<real>, y: array<real>, n: nat, ghost u: Vec, ghost v: Vec) returns (d: real)
    requires Has(x, u) && Has(y, v) && |u| == |v| == n
    ensures d == Dot(u, v)
  {
    d := 0.0;
    for j := 1 to n + 1
      invariant d == Dot(u[..j - 1], v[..j - 1])
    {
      assert u[..j][..j - 1] == u[..j - 1] && v[..j][..j - 1] == v[..j - 1];
      d := d + x[j] * y[j];
    }
    assert u[..n] == u && v[..n] == v;
  }

  /** x = x + b*y */
  method AddScaled(x: array<real>, b: real, y: array<real>, n: nat, ghost u: Vec, ghost v: Vec)
    requires Has(x, u) && Has(y, v) && |u| == |v| == n && x != y
    modifies x
    ensures Has(x, Axpy(u, b, v))
  {
    for j := 1 to n + 1
      invariant forall i {:trigger x[i]} :: 1 <= i <= n ==>
                x[i] == if i < j then Comb(u[i - 1], b, v[i - 1]) else u[i - 1]
    {
      x[j] := x[j] + b * y[j];
    }
  }

  /** p = r + b*p */
  method Turn(p: array<real>, b: real, r: array<real>, n: nat, ghost u: Vec, ghost v: Vec)
    requires Has(r, u) && Has(p, v) && |u| == |v| == n && p != r
    modifies p
    ensures Has(p, Axpy(u, b, v))
  {
    for j := 1 to n + 1
      invariant forall i {:trigger p[i]} :: 1 <= i <= n ==>
                p[i] == if i < j then Comb(u[i - 1], b, v[i - 1]) else v[i - 1]
    {
      p[j] := r[j] + b * p[j];
    }
  }

  ghost predicate Apart(x: array<real>, z: array<real>, a: array<real>, p: array<real>, q: array<real>,
                        r: array<real>, w: array<real>) {
    && x != z && x != p && x != q && x != r && x != w && z != a && z != p && z != q && z != r && z != w
    && a != p && a != q && a != r && a != w && p != q && p != r && p != w && q != r && q != w && r != w
  }

  /** z, r and p hold the state s. */
  ghost predicate HasState(z: array<real>, r: array<real>, p: array<real>, s: Cg)
    reads z, r, p
  {
    Has(z, s.z) && Has(r, s.r) && Has(p, s.p)
  }

  /** The body of the iteration loop. Where it divides by zero, exact arithmetic has no value and doubles go on with
      infinities; the result false reports that. */
  method OnePass(n: nat, colidx: array<int>, rowstr: array<int>, x: array<real>, z: array<real>, a: array<real>,
                 p: array<real>, q: array<real>, r: array<real>, w: array<real>, rho0: real, ghost m: Rows,
                 ghost s: Cg) returns (ok: bool, rho: real)
    requires Apart(x, z, a, p, q, r, w) && Stored(colidx, a, rowstr, m) && Square(m) && |m| == n
    requires q.Length > n && w.Length > n && Shaped(m, s) && HasState(z, r, p, s) && s.rho == rho0
    modifies z, p, q, r, w
    ensures ok <==> s.rho != 0.0 && Curvature(m, s) != 0.0
    ensures ok ==> HasState(z, r, p, Pass(m, s)) && rho == Pass(m, s).rho
  {
    hide Dot, MatVec, Axpy;
    ghost var ap := MatVec(m, s.p);
    Multiply(colidx, a, rowstr, p, w, n, m, s.p);
    Copy(q, w, n, ap);
    Fill(w, n);
    var d := Inner(p, q, n, s.p, ap);
    rho := 0.0;
    ok := d != 0.0 && rho0 != 0.0;
    if !ok { return; }
    var alpha := rho0 / d;
    AddScaled(z, alpha, p, n, s.z, s.p);
    AddScaled(r, -alpha, q, n, s.r, ap);
    ghost var r1 := Axpy(s.r, -alpha, ap);
    rho := Inner(r, r, n, r1, r1);
    var beta := rho / rho0;
    Turn(p, beta, r, n, r1, s.p);
  }

  /** conj_grad: after cgitmax passes z holds the iterate, and the sum of squares under the final square root is
      both the norm of x - A*z and the last rho of the recurrence. It gets there exactly when no divisor vanishes. */
  method Solve(n: nat, cgitmax: nat, colidx: array<int>, rowstr: array<int>, x: array<real>, z: array<real>,
               a: array<real>, p: array<real>, q: array<real>, r: array<real>, w: array<real>, ghost m: Rows,
               ghost v: Vec) returns (ok: bool, sum: real)
    requires Apart(x, z, a, p, q, r, w) && Stored(colidx, a, rowstr, m) && Square(m) && |m| == n == |v| && Has(x, v)
    requires z.Length > n && p.Length > n && q.Length > n && r.Length > n && w.Length > n
    modifies z, p, q, r, w
    ensures ok <==> Regular(m, v, cgitmax)
    ensures ok ==> Has(z, After(m, v, cgitmax).z)
    ensures ok ==> sum == After(m, v, cgitmax).rho
  {
    hide Dot, MatVec, Axpy;
    Fill(q, n);
    Fill(z, n);
    Copy(r, x, n, v);
    Copy(p, r, n, v);
    Fill(w, n);
    sum, ok := 0.0, true;
    var rho := Inner(x, x, n, v, v);
    for cgit := 0 to cgitmax
      invariant ok && Regular(m, v, cgit) && HasState(z, r, p, After(m, v, cgit)) && rho == After(m, v, cgit).rho
    {
      ok, rho := OnePass(n, colidx, rowstr, x, z, a, p, q, r, w, rho, m, After(m, v, cgit));
      if !ok {
        NotRegularLater(m, v, cgit + 1, cgitmax);
        return;
      }
    }
    ghost var zz := After(m, v, cgitmax).z;
    Multiply(colidx, a, rowstr, z, w, n, m, zz);
    Copy(r, w, n, MatVec(m, zz));
    sum := Residual(x, r, n, v, MatVec(m, zz));
    RecomputedNorm(m, v, cgitmax);
  }

  lemma NotRegularLater(m: Rows, x: Vec, i: nat, k: nat)
    requires |x| == |m| && !Regular(m, x, i) && i <= k
    ensures !Regular(m, x, k)
  {
    if Regular(m, x, k) {
      RegularBefore(m, x, i, k);
    }
  }

  /** The closing loop: the sum of the squares of x - r. */
  method Residual(x: array<real>, r: array<real>, n: nat, ghost u: Vec, ghost v: Vec) returns (sum: real)
    requires Has(x, u) && Has(r, v) && |u| == |v| == n
    ensures sum == Dot(Axpy(u, -1.0, v), Axpy(u, -1.0, v))
  {
    sum := 0.0;
    ghost var e := Axpy(u, -1.0, v);
    for j := 1 to n + 1
      invariant sum == Dot(e[..j - 1], e[..j - 1])
    {
      assert e[..j][..j - 1] == e[..j - 1];
      var d := x[j] - r[j];
      sum := sum + d * d;
    }
    assert e[..n] == e;
  }
}
