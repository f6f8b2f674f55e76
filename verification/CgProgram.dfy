/** The program of bomp/benchmark/cg.c up to the end of its first call of conj_grad: the matrix that makea leaves in the
    arrays, what is known of it, and what conj_grad makes of it. */
module CgProgram {
  import opened Arith
  import opened Sparse
  import opened MakeA
  import opened ConjGrad
  import opened CgSteps
  import opened CgMatrix

  // ---------- The diagonal of the matrix ----------

  ghost function SquareSum(vec: seq<Entry>): real {
    if vec == [] then 0.0 else SquareSum(vec[..|vec| - 1]) + Squared(vec[|vec| - 1].val)
  }

  /** The squares of the sums in columns 1 to n. */
  ghost function NormTo(vec: seq<Entry>, n: nat): real {
    if n == 0 then 0.0 else NormTo(vec, n - 1) + Squared(ColSum(vec, n))
  }

  lemma {:induction false} NormToNone(n: nat)
    ensures NormTo([], n) == 0.0
  {
    if n > 0 {
      NormToNone(n - 1);
    }
  }

  lemma {:induction false} NormToAppend(vec: seq<Entry>, e: Entry, n: nat)
    requires forall p {:trigger vec[p]} :: 0 <= p < |vec| ==> vec[p].col != e.col
    ensures NormTo(vec + [e], n) == NormTo(vec, n) + if 1 <= e.col <= n then Squared(e.val) else 0.0
  {
    hide Squared, ColSum;
    if n > 0 {
      NormToAppend(vec, e, n - 1);
      ColSumAppend(vec, e, n);
      if e.col == n {
        OtherColumn(vec, n);
        SquareNonNegative(0.0);
      }
    }
  }

  lemma {:induction false} NormIsSquareSum(vec: seq<Entry>, n: nat)
    requires ProperVector(vec, n)
    ensures NormTo(vec, n) == SquareSum(vec)
  {
    if vec == [] {
      NormToNone(n);
    } else {
      var pre, e := vec[..|vec| - 1], vec[|vec| - 1];
      assert forall p {:trigger pre[p]} :: 0 <= p < |pre| ==> pre[p] == vec[p];
      NormIsSquareSum(pre, n);
      NormToAppend(pre, e, n);
      assert pre + [e] == vec;
    }
  }

  ghost predicate UnitValues(vec: seq<Entry>) {
    forall p {:trigger vec[p]} :: 0 <= p < |vec| ==> 0.0 <= vec[p].val < 1.0
  }

  ghost predicate HasHalf(vec: seq<Entry>) { exists p :: 0 <= p < |vec| && vec[p].val == 0.5 }

  lemma SquareAtMost(a: real)
    requires 0.0 <= a < 1.0
    ensures Squared(a) <= 1.0 && (a == 0.5 ==> Squared(a) == 0.25)
  {
    assert a * a <= a;
  }

  lemma {:induction false} SquareSumBound(vec: seq<Entry>)
    requires UnitValues(vec)
    ensures SquareSum(vec) <= |vec| as real - if HasHalf(vec) then 0.75 else 0.0
  {
    if vec != [] {
      var pre, e := vec[..|vec| - 1], vec[|vec| - 1];
      assert forall p {:trigger pre[p]} :: 0 <= p < |pre| ==> pre[p] == vec[p];
      SquareSumBound(pre);
      SquareAtMost(e.val);
      if HasHalf(vec) && e.val != 0.5 {
        var p :| 0 <= p < |vec| && vec[p].val == 0.5;
        assert pre[p].val == 0.5;
      }
    }
  }

  /** A vector of makea: at most nonzer + 1 numbers below 1, and 1/2 at one index. */
  lemma NormBound(vec: seq<Entry>, n: nat, nonzer: nat, c: int)
    requires ProperVector(vec, n) && |vec| <= nonzer + 1 && UnitValues(vec) && ColSum(vec, c) == 0.5
    ensures NormTo(vec, n) <= nonzer as real + 0.25
  {
    NormIsSquareSum(vec, n);
    SquareSumBound(vec);
    SumOfDistinct(vec, c);
    if !HasHalf(vec) {
      assert false;
    }
  }

  /** The diagonal of the weighted sum of outer products, added up to place n. */
  ghost function Trace(vecs: seq<seq<Entry>>, ratio: real, n: nat): real {
    if n == 0 then 0.0 else Trace(vecs, ratio, n - 1) + OuterSum(vecs, ratio, n, n)
  }

  lemma {:induction false} TraceNone(ratio: real, n: nat)
    ensures Trace([], ratio, n) == 0.0
  {
    if n > 0 {
      TraceNone(ratio, n - 1);
    }
  }

  lemma OuterLast(vecs: seq<seq<Entry>>, ratio: real, i: int)
    requires vecs != []
    ensures var t := |vecs| - 1;
            OuterSum(vecs, ratio, i, i)
                == OuterSum(vecs[..t], ratio, i, i) + Times(RealPower(ratio, t), Squared(ColSum(vecs[t], i)))
  {
  }

  lemma TimesAdd(w: real, a: real, b: real)
    ensures Times(w, a + b) == Times(w, a) + Times(w, b) && Times(w, 0.0) == 0.0
  {
  }

  lemma {:induction false} TraceLast(vecs: seq<seq<Entry>>, ratio: real, n: nat)
    requires vecs != []
    ensures var t := |vecs| - 1;
            Trace(vecs, ratio, n) == Trace(vecs[..t], ratio, n) + Times(RealPower(ratio, t), NormTo(vecs[t], n))
  {
    hide OuterSum, Times, Squared, ColSum;
    var w, v := RealPower(ratio, |vecs| - 1), vecs[|vecs| - 1];
    if n == 0 {
      TimesAdd(w, 0.0, 0.0);
    } else {
      TraceLast(vecs, ratio, n - 1);
      OuterLast(vecs, ratio, n);
      TimesAdd(w, NormTo(v, n - 1), Squared(ColSum(v, n)));
    }
  }

  lemma {:induction false} PowerAtMost(ratio: real, k: nat)
    requires 0.0 <= ratio <= 1.0
    ensures 0.0 <= RealPower(ratio, k) <= 1.0
  {
    if k > 0 {
      PowerAtMost(ratio, k - 1);
      UnitProduct(RealPower(ratio, k - 1), ratio);
    }
  }

  lemma UnitProduct(w: real, x: real)
    requires 0.0 <= w <= 1.0 && 0.0 <= x <= 1.0
    ensures 0.0 <= w * x <= 1.0
  {
    var y := 1.0 - x;
    NonNegative(w, x);
    NonNegative(w, y);
    assert w * (x + y) == w * x + w * y;
  }

  lemma NonNegative(a: real, b: real)
    requires a >= 0.0 && b >= 0.0
    ensures a * b >= 0.0
  {
    if a > 0.0 && b > 0.0 {
      SignOfProduct(a, b, a * b);
    } else if a == 0.0 {
      assert 0.0 * b == 0.0;
    } else {
      assert a * 0.0 == 0.0;
    }
  }

  lemma TimesAtMost(w: real, a: real, b: real)
    requires 0.0 <= w <= 1.0 && a <= b && 0.0 <= b
    ensures Times(w, a) <= b
  {
    var d, u := b - a, 1.0 - w;
    NonNegative(w, d);
    NonNegative(u, b);
    assert w * d == w * b - w * a;
    assert u * b == b - w * b;
  }

  lemma {:induction false} TraceBound(vecs: seq<seq<Entry>>, ratio: real, n: nat, b: real)
    requires 0.0 <= ratio <= 1.0 && 0.0 <= b && forall t {:trigger vecs[t]} :: 0 <= t < |vecs| ==>
               NormTo(vecs[t], n) <= b
    ensures Trace(vecs, ratio, n) <= |vecs| as real * b
  {
    hide Trace, NormTo, RealPower, Times;
    if vecs == [] {
      TraceNone(ratio, n);
    } else {
      var t := |vecs| - 1;
      var pre := vecs[..t];
      assert forall u {:trigger pre[u]} :: 0 <= u < |pre| ==> pre[u] == vecs[u];
      TraceBound(pre, ratio, n, b);
      TraceLast(vecs, ratio, n);
      PowerAtMost(ratio, t);
      TimesAtMost(RealPower(ratio, t), NormTo(vecs[t], n), b);
      assert (t + 1) as real * b == t as real * b + b;
    }
  }

  lemma {:induction false} DiagonalSigns(vecs: seq<seq<Entry>>, ratio: real, diagonal: real, n: nat)
    requires forall i {:trigger MatrixEntry(vecs, ratio, diagonal, i, i)} :: 1 <= i <= n ==>
               MatrixEntry(vecs, ratio, diagonal, i, i) >= 0.0
    ensures Trace(vecs, ratio, n) + n as real * diagonal >= 0.0
  {
    hide OuterSum;
    if n > 0 {
      DiagonalSigns(vecs, ratio, diagonal, n - 1);
      assert MatrixEntry(vecs, ratio, diagonal, n, n) >= 0.0;
      assert n as real * diagonal == (n - 1) as real * diagonal + diagonal;
    }
  }

  // ---------- The values of the vectors ----------

  lemma {:induction false} DrawnValues(rnd: nat -> real, n: nat, pos: nat, k: nat)
    requires UnitStream(rnd)
    ensures UnitValues(Drawn(rnd, n, pos, k))
  {
    if k > 0 {
      DrawnValues(rnd, n, pos, k - 1);
      assert 0.0 <= rnd(pos + 2 * (k - 1)) < 1.0;
      hide Index, HasCol;
    }
  }

  lemma SetValues(vec: seq<Entry>, i: int)
    requires UnitValues(vec)
    ensures UnitValues(SetEntry(vec, i, 0.5))
  {
    hide HasCol;
  }

  lemma StreamValues(rnd: nat -> real, n: nat, nonzer: nat, at: seq<nat>, vecs: seq<seq<Entry>>, t: nat)
    requires UnitStream(rnd) && AllFromStream(rnd, n, nonzer, at, vecs) && t < |vecs|
    ensures UnitValues(vecs[t])
  {
    hide UnitValues, UnitStream, SetEntry, Drawn, JustFills;
    assert FromStream(rnd, n, nonzer, at[t], at[t + 1], vecs[t], t + 1);
    var k: nat :| vecs[t] == SetEntry(Drawn(rnd, n, at[t], k), t + 1, 0.5);
    DrawnValues(rnd, n, at[t], k);
    SetValues(Drawn(rnd, n, at[t], k), t + 1);
  }

  // ---------- The matrix is not positive definite ----------

  /** With a shift as large as in all the classes of problems, some place on the diagonal is negative. */
  lemma DiagonalNegative(rnd: nat -> real, n: nat, nonzer: nat, at: seq<nat>, vecs: seq<seq<Entry>>, ratio: real,
                         diagonal: real)
    requires UnitStream(rnd) && n >= 1 && |vecs| == n && 0.0 <= ratio <= 1.0
    requires Vectors(vecs, n, nonzer) && AllFromStream(rnd, n, nonzer, at, vecs)
    requires nonzer as real + 0.25 + diagonal < 0.0
    ensures exists i {:trigger MatrixEntry(vecs, ratio, diagonal, i, i)} :: 1 <= i <= n
              && MatrixEntry(vecs, ratio, diagonal, i, i) < 0.0
  {
    hide AllFromStream, UnitStream, MatrixEntry, UnitValues, NormTo, Trace, ProperVector;
    var b := nonzer as real + 0.25;
    forall t {:trigger vecs[t]} | 0 <= t < |vecs|
      ensures NormTo(vecs[t], n) <= b
    {
      StreamValues(rnd, n, nonzer, at, vecs, t);
      NormBound(vecs[t], n, nonzer, t + 1);
    }
    TraceBound(vecs, ratio, n, b);
    if forall i {:trigger MatrixEntry(vecs, ratio, diagonal, i, i)} :: 1 <= i <= n ==>
         MatrixEntry(vecs, ratio, diagonal, i, i) >= 0.0 {
      DiagonalSigns(vecs, ratio, diagonal, n);
      NegativeProduct(n, b, diagonal);
      assert false;
    }
  }

  lemma NegativeProduct(n: nat, b: real, d: real)
    requires n >= 1 && b + d < 0.0
    ensures n as real * b + n as real * d < 0.0
  {
    var x, s := n as real, b + d;
    assert x * s == x * b + x * d;
    assert x * s < 0.0;
  }

  lemma {:induction false} RowDotUnit(es: seq<Entry>, n: nat, i: nat)
    requires i < n
    ensures RowDot(es, Unit(n, i)) == ColSum(es, i + 1)
  {
    if es != [] {
      var e := es[|es| - 1];
      RowDotUnit(es[..|es| - 1], n, i);
      hide RowDot, ColSum;
      assert Element(Unit(n, i), e.col) == if e.col == i + 1 then 1.0 else 0.0;
      assert Prod(e.val, 1.0) == e.val && Prod(e.val, 0.0) == 0.0;
    }
  }

  /** A positive definite matrix has a positive diagonal. */
  lemma NotPositive(m: Rows, i: nat)
    requires i < |m| && ColSum(m[i], i + 1) < 0.0
    ensures !PositiveDefinite(m)
  {
    var n := |m|;
    var u := Unit(n, i);
    RowDotUnit(m[i], n, i);
    DotUnit(n, i, MatVec(m, u));
    assert u[i] == 1.0;
    hide Dot, RowDot, ColSum;
    assert Dot(u, MatVec(m, u)) < 0.0;
  }

  /** What conj_grad is called with. */
  ghost predicate ProgramMatrix(m: Rows, n: nat, nonzer: nat, rnd: nat -> real, ratio: real, diagonal: real,
                                at: seq<nat>, vecs: seq<seq<Entry>>) {
    && |m| == n == |vecs| && Square(m) && Symmetric(m)
    && Vectors(vecs, n, nonzer) && AllFromStream(rnd, n, nonzer, at, vecs)
    && forall i: nat, j: nat {:trigger ColSum(m[i], j + 1)} :: i < n && j < n ==>
         ColSum(m[i], j + 1) == MatrixEntry(vecs, ratio, diagonal, i + 1, j + 1)
  }

  /** The program's matrix is not positive definite: conj_grad works on it because it is definite the other way round,
      or because it meets no direction without curvature. */
  lemma ProgramMatrixNotPositive(m: Rows, n: nat, nonzer: nat, rnd: nat -> real, ratio: real, diagonal: real,
                                 at: seq<nat>, vecs: seq<seq<Entry>>)
    requires UnitStream(rnd) && n >= 1 && 0.0 <= ratio <= 1.0
    requires ProgramMatrix(m, n, nonzer, rnd, ratio, diagonal, at, vecs)
    requires nonzer as real + 0.25 + diagonal < 0.0
    ensures !PositiveDefinite(m)
  {
    hide AllFromStream, UnitStream, MatrixEntry, Vectors, PositiveDefinite, Square, Symmetric, ColSum;
    DiagonalNegative(rnd, n, nonzer, at, vecs, ratio, diagonal);
    var i {:trigger MatrixEntry(vecs, ratio, diagonal, i, i)} :| 1 <= i <= n
        && MatrixEntry(vecs, ratio, diagonal, i, i) < 0.0;
    var k: nat := i - 1;
    assert ColSum(m[k], k + 1) == MatrixEntry(vecs, ratio, diagonal, k + 1, k + 1) < 0.0;
    NotPositive(m, k);
  }

  // ---------- What the form of the matrix is ----------

  /** Row r of the weighted sum of outer products, times y. */
  ghost function Proj(vecs: seq<seq<Entry>>, ratio: real, r: int, y: Vec): real {
    if vecs == [] then 0.0 else
      var t := |vecs| - 1;
      Proj(vecs[..t], ratio, r, y) + Prod(RealPower(ratio, t), Prod(ColSum(vecs[t], r), ByColumn(vecs[t], y)))
  }

  /** x times the weighted sum of outer products times y. */
  ghost function Pairs(vecs: seq<seq<Entry>>, ratio: real, x: Vec, y: Vec): real {
    if vecs == [] then 0.0 else
      var t := |vecs| - 1;
      Pairs(vecs[..t], ratio, x, y) + Prod(RealPower(ratio, t), Prod(ByColumn(vecs[t], x), ByColumn(vecs[t], y)))
  }

  lemma {:induction false} NoProj(vecs: seq<seq<Entry>>, ratio: real, r: int)
    ensures Proj(vecs, ratio, r, []) == 0.0
  {
    hide ColSum;
    if vecs != [] {
      var t := |vecs| - 1;
      NoProj(vecs[..t], ratio, r);
      ProdZero(ColSum(vecs[t], r));
      ProdZero(RealPower(ratio, t));
    }
  }

  lemma {:induction false} NoPairs(vecs: seq<seq<Entry>>, ratio: real, y: Vec)
    ensures Pairs(vecs, ratio, [], y) == 0.0
  {
    hide ColSum;
    if vecs != [] {
      var t := |vecs| - 1;
      NoPairs(vecs[..t], ratio, y);
      ProdZero(ByColumn(vecs[t], y));
      ProdZero(RealPower(ratio, t));
    }
  }

  lemma ProdZero(a: real)
    ensures Prod(a, 0.0) == 0.0 == Prod(0.0, a)
  {
  }

  lemma ProdAdd(a: real, b: real, c: real)
    ensures Prod(a + b, c) == Prod(a, c) + Prod(b, c) && Prod(c, a + b) == Prod(c, a) + Prod(c, b)
  {
  }

  /** w*(a*(b + u*y)) */
  lemma ProjTerm(w: real, a: real, b: real, u: real, y: real)
    ensures Prod(w, Prod(a, b + Prod(u, y))) == Prod(w, Prod(a, b)) + Prod(Prod(w, Prod(a, u)), y)
  {
    assert a * (b + u * y) == a * b + a * (u * y);
    assert w * (a * b + a * (u * y)) == w * (a * b) + w * (a * (u * y));
    assert a * (u * y) == (a * u) * y;
    assert w * ((a * u) * y) == (w * (a * u)) * y;
  }

  lemma {:induction false} ProjLast(vecs: seq<seq<Entry>>, ratio: real, r: int, y: Vec)
    requires y != []
    ensures var k := |y| - 1;
            Proj(vecs, ratio, r, y) == Proj(vecs, ratio, r, y[..k]) + Prod(OuterSum(vecs, ratio, r, k + 1), y[k])
  {
    var k := |y| - 1;
    if vecs == [] {
      ProdZero(y[k]);
    } else {
      var t := |vecs| - 1;
      var w, a, u := RealPower(ratio, t), ColSum(vecs[t], r), ColSum(vecs[t], k + 1);
      ProjLast(vecs[..t], ratio, r, y);
      OuterIs(vecs, ratio, r, k + 1);
      hide ColSum, Prod, OuterSum, RealPower;
      ProjTerm(w, a, ByColumn(vecs[t], y[..k]), u, y[k]);
      ProdAdd(OuterSum(vecs[..t], ratio, r, k + 1), Prod(w, Prod(a, u)), y[k]);
    }
  }

  lemma OuterIs(vecs: seq<seq<Entry>>, ratio: real, r: int, c: int)
    requires vecs != []
    ensures var t := |vecs| - 1;
            OuterSum(vecs, ratio, r, c) ==
              OuterSum(vecs[..t], ratio, r, c) + Prod(RealPower(ratio, t), Prod(ColSum(vecs[t], r), ColSum(vecs[t], c)))
  {
    hide ColSum, RealPower;
  }

  /** w*((b + u*x)*c) */
  lemma PairTerm(w: real, b: real, u: real, x: real, c: real)
    ensures Prod(w, Prod(b + Prod(u, x), c)) == Prod(w, Prod(b, c)) + Prod(x, Prod(w, Prod(u, c)))
  {
    assert (b + u * x) * c == b * c + (u * x) * c;
    assert w * (b * c + (u * x) * c) == w * (b * c) + w * ((u * x) * c);
    assert (u * x) * c == x * (u * c);
    assert w * (x * (u * c)) == x * (w * (u * c));
  }

  lemma {:induction false} PairsLast(vecs: seq<seq<Entry>>, ratio: real, x: Vec, y: Vec)
    requires x != []
    ensures var k := |x| - 1;
            Pairs(vecs, ratio, x, y) == Pairs(vecs, ratio, x[..k], y) + Prod(x[k], Proj(vecs, ratio, k + 1, y))
  {
    var k := |x| - 1;
    if vecs == [] {
      ProdZero(x[k]);
    } else {
      var t := |vecs| - 1;
      var w, u, c := RealPower(ratio, t), ColSum(vecs[t], k + 1), ByColumn(vecs[t], y);
      PairsLast(vecs[..t], ratio, x, y);
      hide ColSum, Prod, RealPower;
      PairTerm(w, ByColumn(vecs[t], x[..k]), u, x[k], c);
      ProdAdd(Proj(vecs[..t], ratio, k + 1, y), Prod(w, Prod(u, c)), x[k]);
    }
  }

  /** A row of the matrix times y. */
  lemma {:induction false} RowIs(es: seq<Entry>, vecs: seq<seq<Entry>>, ratio: real, diagonal: real, i: nat, y: Vec)
    requires forall j: nat {:trigger ColSum(es, j + 1)} :: j < |y| ==>
               ColSum(es, j + 1) == MatrixEntry(vecs, ratio, diagonal, i + 1, j + 1)
    ensures ByColumn(es, y) == Proj(vecs, ratio, i + 1, y) + if i < |y| then Prod(diagonal, y[i]) else 0.0
  {
    if y == [] {
      NoProj(vecs, ratio, i + 1);
    } else {
      var k := |y| - 1;
      assert ColSum(es, k + 1) == MatrixEntry(vecs, ratio, diagonal, i + 1, k + 1);
      RowIs(es, vecs, ratio, diagonal, i, y[..k]);
      ProjLast(vecs, ratio, i + 1, y);
      hide ColSum, OuterSum, Proj, Prod;
      ProdAdd(OuterSum(vecs, ratio, i + 1, k + 1), if i == k then diagonal else 0.0, y[k]);
      ProdZero(y[k]);
    }
  }

  /** The form of the matrix: of the outer products, and of the diagonal. */
  lemma {:induction false} FormIs(m: Rows, vecs: seq<seq<Entry>>, ratio: real, diagonal: real, x: Vec, y: Vec)
    requires |x| <= |m| && |x| <= |y|
    requires forall i: nat, j: nat {:trigger ColSum(m[i], j + 1)} :: i < |m| && j < |y| ==>
               ColSum(m[i], j + 1) == MatrixEntry(vecs, ratio, diagonal, i + 1, j + 1)
    ensures Form(m, x, y) == Pairs(vecs, ratio, x, y) + Prod(diagonal, Dot(x, y[..|x|]))
  {
    hide ColSum, MatrixEntry;
    if x == [] {
      NoPairs(vecs, ratio, y);
      ProdZero(diagonal);
    } else {
      var k := |x| - 1;
      FormIs(m, vecs, ratio, diagonal, x[..k], y);
      RowIs(m[k], vecs, ratio, diagonal, k, y);
      PairsLast(vecs, ratio, x, y);
      assert y[..k + 1][..k] == y[..k];
      assert Dot(x, y[..k + 1]) == Dot(x[..k], y[..k]) + Prod(x[k], y[k]);
      hide Proj, Pairs, Dot, ByColumn, Prod;
      ProdAdd(Proj(vecs, ratio, k + 1, y), Prod(diagonal, y[k]), x[k]);
      ProdAdd(Dot(x[..k], y[..k]), Prod(x[k], y[k]), diagonal);
      ProdSwap(x[k], diagonal, y[k]);
    }
  }

  lemma ProdSwap(a: real, b: real, c: real)
    ensures Prod(a, Prod(b, c)) == Prod(b, Prod(a, c))
  {
  }

  lemma {:induction false} PairsNonNegative(vecs: seq<seq<Entry>>, ratio: real, x: Vec)
    requires 0.0 <= ratio <= 1.0
    ensures Pairs(vecs, ratio, x, x) >= 0.0
  {
    hide ByColumn, RealPower;
    if vecs != [] {
      var t := |vecs| - 1;
      var b := ByColumn(vecs[t], x);
      PairsNonNegative(vecs[..t], ratio, x);
      PowerAtMost(ratio, t);
      SquareNonNegative(b);
      NonNegative(RealPower(ratio, t), b * b);
    }
  }

  /** What adding to the diagonal does: it bounds the form from below by rcond - shift, not by rcond. */
  lemma FormBound(m: Rows, n: nat, nonzer: nat, rnd: nat -> real, ratio: real, diagonal: real, at: seq<nat>,
                  vecs: seq<seq<Entry>>, x: Vec)
    requires ProgramMatrix(m, n, nonzer, rnd, ratio, diagonal, at, vecs) && 0.0 <= ratio <= 1.0 && |x| == n
    ensures Dot(x, MatVec(m, x)) >= diagonal * Dot(x, x)
  {
    hide ColSum, MatrixEntry, Dot, Form, MatVec, Pairs;
    FormIsDot(m, x, x);
    FormIs(m, vecs, ratio, diagonal, x, x);
    PairsNonNegative(vecs, ratio, x);
    assert x[..n] == x && MatVec(m, x)[..n] == MatVec(m, x);
  }

  /** With a shift below rcond the matrix is positive definite. */
  lemma PositiveWhen(m: Rows, n: nat, nonzer: nat, rnd: nat -> real, ratio: real, diagonal: real, at: seq<nat>,
                     vecs: seq<seq<Entry>>)
    requires ProgramMatrix(m, n, nonzer, rnd, ratio, diagonal, at, vecs) && 0.0 <= ratio <= 1.0 && diagonal > 0.0
    ensures PositiveDefinite(m) && Definite(m)
  {
    hide ProgramMatrix, Dot, MatVec, IsZero;
    forall v: Vec {:trigger MatVec(m, v)} | |v| == |m| && !IsZero(v)
      ensures Dot(v, MatVec(m, v)) > 0.0
    {
      SizeIs(m, n, nonzer, rnd, ratio, diagonal, at, vecs);
      FormBound(m, n, nonzer, rnd, ratio, diagonal, at, vecs, v);
      NormZero(v);
      SignOfProduct(diagonal, Dot(v, v), diagonal * Dot(v, v));
    }
  }

  lemma SizeIs(m: Rows, n: nat, nonzer: nat, rnd: nat -> real, ratio: real, diagonal: real, at: seq<nat>,
               vecs: seq<seq<Entry>>)
    requires ProgramMatrix(m, n, nonzer, rnd, ratio, diagonal, at, vecs)
    ensures |m| == n
  {
  }

  // ---------- From the stream of random numbers to the solution ----------

  ghost function Ones(n: nat): (v: Vec)
    ensures |v| == n
  {
    seq(n, _ => 1.0)
  }

  method FillOnes(x: array<real>, n: nat)
    requires n < x.Length
    modifies x
    ensures Has(x, Ones(n)) && forall i {:trigger x[i]} :: 1 <= i <= n ==> x[i] == 1.0
  {
    for i := 1 to n + 1
      invariant forall j {:trigger x[j]} :: 1 <= j < i ==> x[j] == 1.0
    {
      x[i] := 1.0;
    }
  }

  /** makea, the starting vector of ones, and the first call of conj_grad, on the same arrays. With the space that NZ
      provides there is never too little. The passes get to the end exactly when no divisor vanishes; then z holds
      their iterate, and the sum of squares is that of its residual. */
  method MakeAndSolve(n: nat, nz: nat, cgitmax: nat, a: array<real>, colidx: array<int>, rowstr: array<int>,
                      nonzer: nat, rcond: real, ratio: real, arow: array<int>, acol: array<int>, aelt: array<real>,
                      v: array<real>, iv: array<int>, shift: real, x: array<real>, z: array<real>, p: array<real>,
                      q: array<real>, r: array<real>, w: array<real>, rnd: nat -> real, fuel: nat)
    returns (outcome: Outcome, ok: bool, sum: real, ghost m: Rows, ghost vecs: seq<seq<Entry>>, ghost at: seq<nat>)
    requires UnitStream(rnd) && n >= 1 && nz >= n * ((nonzer + 1) * (nonzer + 1)) + n * (nonzer + 2)
    requires nz < arow.Length && nz < acol.Length && nz < aelt.Length && nz < a.Length && nz < colidx.Length
    requires 2 * n < colidx.Length && v.Length > n + 1 && iv.Length > 2 * n + 1 && rowstr.Length > n + 1
    requires Separate(arow, acol, aelt, iv, v) && colidx != iv && colidx != arow && colidx != acol
    requires rowstr != colidx && rowstr != iv && rowstr != arow && rowstr != acol && a != v && a != aelt
    requires Apart(x, z, a, p, q, r, w) && x != a
    requires x.Length > n && z.Length > n && p.Length > n && q.Length > n && r.Length > n && w.Length > n
    modifies a, colidx, rowstr, arow, acol, aelt, v, iv, x, z, p, q, r, w
    ensures outcome != OutOfSpace
    ensures outcome.Done? ==> ProgramMatrix(m, n, nonzer, rnd, ratio, rcond - shift, at, vecs)
    ensures outcome.Done? ==> Has(x, Ones(n)) && forall i {:trigger x[i]} :: 1 <= i <= n ==> x[i] == 1.0
    ensures outcome.Done? ==> (ok <==> Regular(m, Ones(n), cgitmax))
    ensures outcome.Done? && ok ==> Has(z, After(m, Ones(n), cgitmax).z) && sum == After(m, Ones(n), cgitmax).rho
  {
    hide Regular, After, AllFromStream, Vectors, MatrixEntry, TripleSum, Csr, RowsOf, Stored, Has, Square, Symmetric;
    ghost var ts;
    ok, sum, m := false, 0.0, [];
    outcome, ts, vecs, at := MakeMatrix(n, nz, a, colidx, rowstr, nonzer, Window(1, n, 1, n), rcond, ratio, arow, acol,
                                        aelt, v, iv, shift, rnd, fuel);
    if outcome != Done { return; }
    ghost var c, e, s := colidx[..], a[..], rowstr[..];
    m := RowsOf(c, e, s, n, ts);
    MadeMatrix(c, e, s, n, ts, vecs, ratio, rcond - shift);
    FillOnes(x, n);
    assert colidx[..] == c && a[..] == e && rowstr[..] == s;
    RowsStored(colidx, a, rowstr, n, ts);
    ok, sum := Solve(n, cgitmax, colidx, rowstr, x, z, a, p, q, r, w, m, Ones(n));
  }
}
