/** How many passes conj_grad in bomp/benchmark/cg.c needs in exact arithmetic: on every symmetric matrix it comes
    either to a zero residual, after at most as many passes as the matrix has rows, or to a direction other than 0
    along which the matrix has no curvature. The second cannot happen when the matrix is definite, positive or
    negative. */
module CgSteps {
  import opened ConjGrad

  // ---------- Vectors ----------

  ghost predicate IsZero(x: Vec) { forall i {:trigger x[i]} :: 0 <= i < |x| ==> x[i] == 0.0 }

  function Squared(a: real): real { a * a }

  lemma SignOfProduct(a: real, b: real, p: real)
    requires p == a * b
    ensures (a > 0.0 && b > 0.0) || (a < 0.0 && b < 0.0) ==> p > 0.0
    ensures a == 0.0 ==> p == 0.0
  {
  }

  lemma SquareNonNegative(a: real)
    ensures Squared(a) >= 0.0 && (Squared(a) == 0.0 <==> a == 0.0)
  {
    SignOfProduct(a, a, Squared(a));
    hide Squared;
  }

  lemma DotSquared(x: Vec)
    requires x != []
    ensures Dot(x, x) == Dot(x[..|x| - 1], x[..|x| - 1]) + Squared(x[|x| - 1])
  {
  }

  lemma {:induction false} NormZero(x: Vec)
    ensures Dot(x, x) >= 0.0 && (Dot(x, x) == 0.0 <==> IsZero(x))
  {
    if x != [] {
      var pre := x[..|x| - 1];
      NormZero(pre);
      DotSquared(x);
      hide Dot, Squared;
      SquareNonNegative(x[|x| - 1]);
      assert forall i {:trigger pre[i]} :: 0 <= i < |pre| ==> pre[i] == x[i];
      assert IsZero(x) <==> IsZero(pre) && x[|x| - 1] == 0.0;
    }
  }

  lemma {:induction false} DotZero(x: Vec, y: Vec)
    requires |x| == |y| && IsZero(y)
    ensures Dot(x, y) == 0.0
  {
    if x != [] {
      DotZero(x[..|x| - 1], y[..|y| - 1]);
      assert x[|x| - 1] * 0.0 == 0.0;
    }
  }

  // ---------- Mutually orthogonal vectors ----------

  ghost predicate OrthogonalSet(vs: seq<Vec>, n: nat) {
    && (forall i {:trigger vs[i]} :: 0 <= i < |vs| ==> |vs[i]| == n && Dot(vs[i], vs[i]) != 0.0)
    && forall i, j {:trigger Across(vs, i, j)} :: 0 <= i < j < |vs| ==> Across(vs, i, j)
  }

  ghost predicate Across(vs: seq<Vec>, i: nat, j: nat) {
    i < |vs| && j < |vs| && |vs[i]| == |vs[j]| && Dot(vs[i], vs[j]) == 0.0
  }

  ghost function Unit(n: nat, i: nat): (u: Vec)
    ensures |u| == n
  {
    seq(n, j => if j == i then 1.0 else 0.0)
  }

  lemma {:induction false} DotUnit(n: nat, i: nat, v: Vec)
    requires |v| == n
    ensures Dot(Unit(n, i), v) == if i < n then v[i] else 0.0
  {
    if n > 0 {
      assert Unit(n, i)[..n - 1] == Unit(n - 1, i);
      DotUnit(n - 1, i, v[..n - 1]);
      assert 0.0 * v[n - 1] == 0.0 && 1.0 * v[n - 1] == v[n - 1];
    }
  }

  /** The part of v along coordinate i, per unit of its norm. */
  function Ratio(a: real, d: real): real
    requires d != 0.0
  {
    a / d
  }

  /** Coordinate vector i with its components along the first k vectors taken out. */
  ghost function Rest(vs: seq<Vec>, n: nat, i: nat, k: nat): (u: Vec)
    requires OrthogonalSet(vs, n) && i < n && k <= |vs|
    ensures |u| == n
  {
    if k == 0 then Unit(n, i)
    else Axpy(Rest(vs, n, i, k - 1), -Ratio(vs[k - 1][i], Dot(vs[k - 1], vs[k - 1])), vs[k - 1])
  }

  lemma {:induction false} RestDot(vs: seq<Vec>, n: nat, i: nat, k: nat, j: nat)
    requires OrthogonalSet(vs, n) && i < n && k <= j < |vs|
    ensures Dot(Rest(vs, n, i, k), vs[j]) == vs[j][i]
  {
    hide Dot, Axpy, Unit;
    if k == 0 {
      DotUnit(n, i, vs[j]);
    } else {
      RestDot(vs, n, i, k - 1, j);
      var c := Ratio(vs[k - 1][i], Dot(vs[k - 1], vs[k - 1]));
      DotAxpy(Rest(vs, n, i, k - 1), -c, vs[k - 1], vs[j]);
      assert Across(vs, k - 1, j);
      assert -c * 0.0 == 0.0;
    }
  }

  /** The squared components of coordinate vector i along the first k vectors, added up. */
  ghost function Share(vs: seq<Vec>, n: nat, i: nat, k: nat): real
    requires OrthogonalSet(vs, n) && i < n && k <= |vs|
  {
    if k == 0 then 0.0 else Share(vs, n, i, k - 1) + Ratio(Squared(vs[k - 1][i]), Dot(vs[k - 1], vs[k - 1]))
  }

  lemma NormStep(b: real, a: real, uu: real, vu: real, wu: real, uv: real, vv: real, wv: real, uw: real, vw: real,
                 ww: real)
    requires vv != 0.0 && b == -Ratio(a, vv) && vu == a && uv == a && wu == uw && wv == vw
    requires wu == Comb(uu, b, vu) && wv == Comb(uv, b, vv) && ww == Comb(uw, b, vw)
    ensures ww == uu - Ratio(Squared(a), vv)
  {
    var c := Ratio(a, vv);
    assert c * vv == a;
    assert b * vv == -(c * vv);
    assert wv == 0.0 && b * 0.0 == 0.0;
    assert (a * a) / vv == c * a;
    assert b * a == -(c * a);
  }

  lemma DotComb(x: Vec, b: real, y: Vec, w: Vec)
    requires |x| == |y| == |w|
    ensures Dot(Axpy(x, b, y), w) == Comb(Dot(x, w), b, Dot(y, w))
  {
    DotAxpy(x, b, y, w);
  }

  lemma {:induction false} RestNorm(vs: seq<Vec>, n: nat, i: nat, k: nat)
    requires OrthogonalSet(vs, n) && i < n && k <= |vs|
    ensures Dot(Rest(vs, n, i, k), Rest(vs, n, i, k)) == 1.0 - Share(vs, n, i, k)
  {
    hide Dot, Axpy, Ratio, Squared, Comb;
    if k == 0 {
      DotUnit(n, i, Unit(n, i));
    } else {
      RestNorm(vs, n, i, k - 1);
      RestDot(vs, n, i, k - 1, k - 1);
      var u, v := Rest(vs, n, i, k - 1), vs[k - 1];
      var b := -Ratio(v[i], Dot(v, v));
      var w := Axpy(u, b, v);
      DotComb(u, b, v, u);
      DotComb(u, b, v, v);
      DotComb(u, b, v, w);
      DotSymmetric(v, u);
      DotSymmetric(u, w);
      DotSymmetric(v, w);
      NormStep(b, v[i], Dot(u, u), Dot(v, u), Dot(w, u), Dot(u, v), Dot(v, v), Dot(w, v), Dot(u, w), Dot(v, w),
               Dot(w, w));
    }
  }

  /** A coordinate's squared components along mutually orthogonal vectors add up to at most 1. */
  lemma Bessel(vs: seq<Vec>, n: nat, i: nat)
    requires OrthogonalSet(vs, n) && i < n
    ensures Share(vs, n, i, |vs|) <= 1.0
  {
    RestNorm(vs, n, i, |vs|);
    NormZero(Rest(vs, n, i, |vs|));
  }

  /** The shares of the first m coordinates. */
  ghost function Shares(vs: seq<Vec>, n: nat, k: nat, m: nat): real
    requires OrthogonalSet(vs, n) && m <= n && k <= |vs|
  {
    if m == 0 then 0.0 else Shares(vs, n, k, m - 1) + Share(vs, n, m - 1, k)
  }

  lemma RatioAdd(a: real, b: real, d: real)
    requires d != 0.0
    ensures Ratio(a + b, d) == Ratio(a, d) + Ratio(b, d) && Ratio(0.0, d) == 0.0 && Ratio(d, d) == 1.0
  {
    var x, y := a / d, b / d;
    assert x * d == a && y * d == b;
    assert (x + y) * d == x * d + y * d;
    RatioIs(a + b, d, x + y);
    RatioIs(0.0, d, 0.0);
    RatioIs(d, d, 1.0);
  }

  lemma RatioIs(a: real, d: real, q: real)
    requires d != 0.0 && q * d == a
    ensures Ratio(a, d) == q
  {
    var e := a / d - q;
    assert (a / d) * d == a;
    assert e * d == (a / d) * d - q * d;
  }

  lemma {:induction false} SharesStep(vs: seq<Vec>, n: nat, k: nat, m: nat)
    requires OrthogonalSet(vs, n) && m <= n && 0 < k <= |vs|
    ensures Shares(vs, n, k, m)
              == Shares(vs, n, k - 1, m) + Ratio(Dot(vs[k - 1][..m], vs[k - 1][..m]), Dot(vs[k - 1], vs[k - 1]))
  {
    hide Ratio, Squared;
    var v := vs[k - 1];
    if m == 0 {
      assert v[..0] == [];
      RatioAdd(0.0, 0.0, Dot(v, v));
    } else {
      SharesStep(vs, n, k, m - 1);
      assert v[..m][..m - 1] == v[..m - 1];
      DotSquared(v[..m]);
      RatioAdd(Dot(v[..m - 1], v[..m - 1]), Squared(v[m - 1]), Dot(v, v));
    }
  }

  /** Each vector shares itself out among the coordinates. */
  lemma {:induction false} SharesCount(vs: seq<Vec>, n: nat, k: nat)
    requires OrthogonalSet(vs, n) && k <= |vs|
    ensures Shares(vs, n, k, n) == k as real
  {
    hide Ratio;
    if k == 0 {
      NoShares(vs, n, n);
    } else {
      SharesCount(vs, n, k - 1);
      SharesStep(vs, n, k, n);
      assert vs[k - 1][..n] == vs[k - 1];
      RatioAdd(0.0, 0.0, Dot(vs[k - 1], vs[k - 1]));
    }
  }

  lemma {:induction false} NoShares(vs: seq<Vec>, n: nat, m: nat)
    requires OrthogonalSet(vs, n) && m <= n
    ensures Shares(vs, n, 0, m) == 0.0
  {
    if m > 0 {
      NoShares(vs, n, m - 1);
    }
  }

  lemma {:induction false} SharesBound(vs: seq<Vec>, n: nat, m: nat)
    requires OrthogonalSet(vs, n) && m <= n
    ensures Shares(vs, n, |vs|, m) <= m as real
  {
    if m > 0 {
      SharesBound(vs, n, m - 1);
      Bessel(vs, n, m - 1);
    }
  }

  /** There are at most n mutually orthogonal vectors of length n other than 0. */
  lemma AtMostDimension(vs: seq<Vec>, n: nat)
    requires OrthogonalSet(vs, n)
    ensures |vs| <= n
  {
    SharesCount(vs, n, |vs|);
    SharesBound(vs, n, n);
  }

  // ---------- Conjugate gradient ----------

  /** The form of m vanishes on no vector but 0. This covers the positive and the negative definite matrices. */
  ghost predicate Definite(m: Rows) {
    forall v: Vec {:trigger MatVec(m, v)} :: |v| == |m| && !IsZero(v) ==> Dot(v, MatVec(m, v)) != 0.0
  }

  ghost predicate PositiveDefinite(m: Rows) {
    forall v: Vec {:trigger MatVec(m, v)} :: |v| == |m| && !IsZero(v) ==> Dot(v, MatVec(m, v)) > 0.0
  }

  /** A residual is orthogonal to all earlier directions. */
  lemma {:induction false} ResidualAcross(m: Rows, x: Vec, k: nat, j: nat)
    requires |x| == |m| && Regular(m, x, k) && Orthogonal(m, x, k) && j < k
    ensures Regular(m, x, j) && Dot(R(m, x, k), P(m, x, j)) == 0.0
  {
    hide Dot, Axpy, MatVec, After, Beta, Alpha;
    RegularBefore(m, x, j, k);
    assert Pair(m, x, k, j, k);
    DotSymmetric(R(m, x, j), R(m, x, k));
    DotSymmetric(R(m, x, k), P(m, x, j));
    if j == 0 {
      FirstDirection(m, x);
    } else {
      ResidualAcross(m, x, k, j - 1);
      PassEquations(m, x, j - 1);
      DotAxpy(R(m, x, j), Beta(m, x, j - 1), P(m, x, j - 1), R(m, x, k));
      DotSymmetric(R(m, x, k), P(m, x, j - 1));
      assert Beta(m, x, j - 1) * 0.0 == 0.0;
    }
  }

  /** A residual times its direction is rho. */
  lemma ResidualAlong(m: Rows, x: Vec, k: nat)
    requires |x| == |m| && Regular(m, x, k) && Orthogonal(m, x, k)
    ensures Dot(R(m, x, k), P(m, x, k)) == After(m, x, k).rho
  {
    hide Dot, Axpy, MatVec, After, Beta, Alpha;
    RhoIsDot(m, x, k);
    if k == 0 {
      FirstDirection(m, x);
    } else {
      ResidualAcross(m, x, k, k - 1);
      RegularBefore(m, x, k - 1, k);
      PassEquations(m, x, k - 1);
      DotSymmetric(R(m, x, k), P(m, x, k));
      DotSymmetric(R(m, x, k), P(m, x, k - 1));
      DotAxpy(R(m, x, k), Beta(m, x, k - 1), P(m, x, k - 1), R(m, x, k));
      assert Beta(m, x, k - 1) * 0.0 == 0.0;
    }
  }

  /** While the residual is not zero, neither is the direction. */
  lemma DirectionNotZero(m: Rows, x: Vec, k: nat)
    requires |x| == |m| && Symmetric(m) && Regular(m, x, k) && !IsZero(R(m, x, k))
    ensures !IsZero(P(m, x, k)) && After(m, x, k).rho != 0.0
  {
    hide Dot, MatVec, After, Symmetric, IsZero;
    CgOrthogonality(m, x, k);
    RhoIsDot(m, x, k);
    NormZero(R(m, x, k));
    ResidualAlong(m, x, k);
    if IsZero(P(m, x, k)) {
      DotZero(R(m, x, k), P(m, x, k));
    }
  }

  /** On a symmetric definite matrix one more pass is possible if and only if the residual is not yet zero. */
  lemma RegularIff(m: Rows, x: Vec, k: nat)
    requires |x| == |m| && Symmetric(m) && Definite(m)
    ensures Regular(m, x, k + 1) <==> Regular(m, x, k) && !IsZero(R(m, x, k))
  {
    hide Dot, MatVec, After, Symmetric, IsZero;
    if Regular(m, x, k) {
      RhoIsDot(m, x, k);
      NormZero(R(m, x, k));
      if !IsZero(R(m, x, k)) {
        DirectionNotZero(m, x, k);
        assert Dot(P(m, x, k), MatVec(m, P(m, x, k))) != 0.0;
      }
    }
  }

  ghost predicate Unsolved(m: Rows, x: Vec, k: nat) {
    |x| == |m| && Regular(m, x, k) && !IsZero(R(m, x, k))
  }

  lemma UnsolvedIff(m: Rows, x: Vec, k: nat)
    requires |x| == |m| && Symmetric(m) && Definite(m)
    ensures Regular(m, x, 0) && (Regular(m, x, k + 1) <==> Unsolved(m, x, k))
  {
    RegularIff(m, x, k);
    hide Symmetric, Definite, IsZero, R, After, Curvature;
  }

  /** So the first k passes are possible if and only if no residual before the last of them is zero. */
  lemma {:induction false} RegularWhile(m: Rows, x: Vec, k: nat)
    requires |x| == |m| && Symmetric(m) && Definite(m)
    ensures Regular(m, x, k) <==> forall j: nat :: j < k ==> Unsolved(m, x, j)
  {
    hide Symmetric, Definite, Unsolved, Regular;
    if k == 0 {
      UnsolvedIff(m, x, 0);
    } else {
      RegularWhile(m, x, k - 1);
      UnsolvedIff(m, x, k - 1);
      if Regular(m, x, k) {
        RegularBefore(m, x, k - 1, k);
      }
    }
  }

  /** The first k residuals, while none of them is zero, are mutually orthogonal. */
  ghost function Residuals(m: Rows, x: Vec, k: nat): (vs: seq<Vec>)
    requires |x| == |m| && Regular(m, x, k)
    ensures |vs| == k
  {
    seq(k, i requires 0 <= i < k => (RegularBefore(m, x, i, k); R(m, x, i)))
  }

  lemma ResidualsOrthogonal(m: Rows, x: Vec, k: nat)
    requires |x| == |m| && Symmetric(m) && Regular(m, x, k)
    ensures OrthogonalSet(Residuals(m, x, k), |m|)
  {
    hide Dot, MatVec, After, Symmetric;
    CgOrthogonality(m, x, k);
    var vs := Residuals(m, x, k);
    forall i {:trigger vs[i]} | 0 <= i < |vs|
      ensures |vs[i]| == |m| && Dot(vs[i], vs[i]) != 0.0
    {
      RegularBefore(m, x, i + 1, k);
      PassEquations(m, x, i);
      RhoIsDot(m, x, i);
    }
    forall i, j {:trigger Across(vs, i, j)} | 0 <= i < j < |vs|
      ensures Across(vs, i, j)
    {
      RegularBefore(m, x, i, k);
      RegularBefore(m, x, j, k);
      assert Pair(m, x, k, i, j);
    }
  }

  /** No run is longer than the matrix has rows. */
  lemma PassesBounded(m: Rows, x: Vec, k: nat)
    requires |x| == |m| && Symmetric(m) && Regular(m, x, k)
    ensures k <= |m|
  {
    ResidualsOrthogonal(m, x, k);
    AtMostDimension(Residuals(m, x, k), |m|);
  }

  /** The residual is zero, and z solves the system exactly. */
  ghost predicate Solved(m: Rows, x: Vec, k: nat) {
    |x| == |m| && Regular(m, x, k) && IsZero(R(m, x, k)) && MatVec(m, After(m, x, k).z) == x
  }

  /** The direction is not 0, but along it the matrix has no curvature: the next pass divides by zero. */
  ghost predicate BrokenDown(m: Rows, x: Vec, k: nat) {
    |x| == |m| && Regular(m, x, k) && !IsZero(P(m, x, k)) && Dot(P(m, x, k), AP(m, x, k)) == 0.0
  }

  /** On every symmetric matrix, for every right side: after at most as many passes as the matrix has rows the system
      is solved, or the passes have come to a direction without curvature. */
  lemma SolvesOrBreaksDown(m: Rows, x: Vec) returns (k: nat)
    requires |x| == |m| && Symmetric(m)
    ensures k <= |m| && (Solved(m, x, k) || BrokenDown(m, x, k))
  {
    hide Dot, MatVec, After, Symmetric, IsZero, R, P;
    k := 0;
    while !IsZero(R(m, x, k)) && Curvature(m, After(m, x, k)) != 0.0
      invariant Regular(m, x, k)
      decreases |m| - k
    {
      DirectionNotZero(m, x, k);
      PassesBounded(m, x, k + 1);
      k := k + 1;
    }
    PassesBounded(m, x, k);
    if IsZero(R(m, x, k)) {
      ResidualGone(m, x, k);
    } else {
      DirectionNotZero(m, x, k);
      CurvatureIs(m, x, k);
    }
  }

  lemma CurvatureIs(m: Rows, x: Vec, k: nat)
    requires |x| == |m| && Regular(m, x, k)
    ensures Curvature(m, After(m, x, k)) == Dot(P(m, x, k), AP(m, x, k))
  {
    hide After, Dot, MatVec;
  }

  lemma ResidualGone(m: Rows, x: Vec, k: nat)
    requires |x| == |m| && Regular(m, x, k) && IsZero(R(m, x, k))
    ensures Solved(m, x, k)
  {
    hide Dot, MatVec, After, IsZero, R;
    TrueResidual(m, x, k);
    ZeroDifference(x, MatVec(m, After(m, x, k).z));
  }

  /** On a definite one it is solved. */
  lemma Solves(m: Rows, x: Vec) returns (k: nat)
    requires |x| == |m| && Symmetric(m) && Definite(m)
    ensures k <= |m| && Solved(m, x, k)
  {
    k := SolvesOrBreaksDown(m, x);
    NoBreakdown(m, x, k);
  }

  lemma NoBreakdown(m: Rows, x: Vec, k: nat)
    requires Definite(m)
    ensures !BrokenDown(m, x, k)
  {
    hide Dot, MatVec, After, IsZero, P;
  }

  lemma ZeroDifference(x: Vec, y: Vec)
    requires |x| == |y| && IsZero(Axpy(x, -1.0, y))
    ensures y == x
  {
    forall i | 0 <= i < |x|
      ensures y[i] == x[i]
    {
      assert Axpy(x, -1.0, y)[i] == Comb(x[i], -1.0, y[i]) == x[i] - y[i];
    }
  }
}
