/** The Stockham stages of cfftz in bomp/benchmark/ft.c on one column, and the proof that the m stages
    of a column of 2^m values are its discrete Fourier transform. */
module Stockham {
  import opened Arith
  import opened ComplexNumbers
  import opened Dft

  /** Block s of the table: the powers of a 2^(s+1)-th root, from index 2^s on. */
  ghost predicate Block(u: seq<Complex>, root: nat -> Complex, s: nat) {
    2 * Exp2(s) <= |u| &&
    forall i: nat {:trigger Power(root(s + 1), i)} :: i < Exp2(s) ==> u[Exp2(s) + i] == Power(root(s + 1), i)
  }

  /** The table of roots as fft_init lays it out. */
  ghost predicate Table(u: seq<Complex>, root: nat -> Complex, m: nat) {
    Roots(root, m) && forall s: nat :: s < m ==> Block(u, root, s)
  }

  /** The factor the stage with block size li uses for block entry i. */
  function Twiddle(u: seq<Complex>, sign: int, li: nat, i: nat): Complex {
    if li + i >= |u| then ZERO else if sign >= 1 then u[li + i] else Conj(u[li + i])
  }

  /** Row p of the output of one stage with stride lk on a column of 2*li*lk rows. */
  function Butterfly(v: seq<Complex>, lk: nat, u: seq<Complex>, sign: int, li: nat, p: nat): Complex
    requires lk >= 1 && |v| == 2 * (li * lk) && p < |v|
  {
    var i, k := p / (2 * lk), p % (2 * lk);
    ButterflyRows(lk, li, p);
    if k < lk then
      Add(v[i * lk + k], v[i * lk + k + li * lk])
    else
      Mul(Twiddle(u, sign, li, i), Sub(v[i * lk + (k - lk)], v[i * lk + (k - lk) + li * lk]))
  }

  lemma ButterflyRows(lk: nat, li: nat, p: nat)
    requires lk >= 1 && p < 2 * (li * lk)
    ensures var i, k := p / (2 * lk), p % (2 * lk);
            0 <= i < li && 0 <= k < 2 * lk && 0 <= i * lk && i * lk + lk <= li * lk && p == 2 * (i * lk) + k
  {
    DoubleMul(li, lk);
    QuotientBound(p, 2 * lk, li);
    var i := p / (2 * lk);
    DoubleMul(i, lk);
    RowGap(i, li, lk);
  }

  /** Rows i*2*lk + k and i*2*lk + lk + k hold the sum and the twisted difference. */
  lemma ButterflyAt(v: seq<Complex>, lk: nat, u: seq<Complex>, sign: int, li: nat, i: nat, k: nat)
    requires lk >= 1 && |v| == 2 * (li * lk) && i < li && k < lk
    ensures 0 <= i * lk && i * lk + lk <= li * lk
    ensures var a, b := v[i * lk + k], v[i * lk + k + li * lk];
            && Butterfly(v, lk, u, sign, li, 2 * (i * lk) + k) == Add(a, b)
            && Butterfly(v, lk, u, sign, li, 2 * (i * lk) + lk + k) == Mul(Twiddle(u, sign, li, i), Sub(a, b))
  {
    hide Add, Sub, Mul, Twiddle;
    RowGap(i, li, lk);
    var base := i * lk;
    DoubleMul(i, lk);
    QuotientUnique(2 * base + k, 2 * lk, i, k);
    QuotientUnique(2 * base + lk + k, 2 * lk, i, lk + k);
  }

  function Stage(v: seq<Complex>, lk: nat, u: seq<Complex>, sign: int, li: nat): (r: seq<Complex>)
    requires lk >= 1 && |v| == 2 * (li * lk)
    ensures |r| == |v|
  {
    seq(|v|, p requires 0 <= p < |v| => Butterfly(v, lk, u, sign, li, p))
  }

  /** The same for a block of columns. */
  function StageAll(cols: seq<seq<Complex>>, lk: nat, u: seq<Complex>, sign: int, li: nat): (r: seq<seq<Complex>>)
    requires lk >= 1 && forall j :: 0 <= j < |cols| ==> |cols[j]| == 2 * (li * lk)
    ensures |r| == |cols| && forall j :: 0 <= j < |cols| ==> |r[j]| == 2 * (li * lk)
  {
    seq(|cols|, j requires 0 <= j < |cols| => Stage(cols[j], lk, u, sign, li))
  }

  /** The column after the first l of m stages. */
  function Stages(v: seq<Complex>, l: nat, m: nat, u: seq<Complex>, sign: int): (r: seq<Complex>)
    requires l <= m && |v| == Exp2(m)
    ensures |r| == |v|
  {
    if l == 0 then v
    else
      StageSizes(l, m);
      Stage(Stages(v, l - 1, m, u, sign), Exp2(l - 1), u, sign, Exp2(m - l))
  }

  function StagesAll(cols: seq<seq<Complex>>, l: nat, m: nat, u: seq<Complex>, sign: int): (r: seq<seq<Complex>>)
    requires l <= m && forall j :: 0 <= j < |cols| ==> |cols[j]| == Exp2(m)
    ensures |r| == |cols| && forall j :: 0 <= j < |cols| ==> |r[j]| == Exp2(m)
  {
    seq(|cols|, j requires 0 <= j < |cols| => Stages(cols[j], l, m, u, sign))
  }

  lemma StagesAllNext(cols: seq<seq<Complex>>, l: nat, m: nat, u: seq<Complex>, sign: int)
    requires l <= m && forall j :: 0 <= j < |cols| ==> |cols[j]| == Exp2(m)
    ensures StagesAll(cols, 0, m, u, sign) == cols
    ensures l >= 1 ==> Exp2(m) == 2 * (Exp2(m - l) * Exp2(l - 1)) &&
                       StagesAll(cols, l, m, u, sign)
                           == StageAll(StagesAll(cols, l - 1, m, u, sign), Exp2(l - 1), u, sign, Exp2(m - l))
  {
    hide Stage;
    if l >= 1 {
      StageSizes(l, m);
    }
  }

  lemma {:induction false} Exp2Add(a: nat, b: nat)
    ensures Exp2(a + b) == Exp2(a) * Exp2(b)
  {
    if a > 0 {
      Exp2Add(a - 1, b);
    }
  }

  lemma StageSizes(l: nat, m: nat)
    requires 1 <= l <= m
    ensures Exp2(m) == 2 * (Exp2(m - l) * Exp2(l - 1)) && Exp2(m) == Exp2(m - l) * Exp2(l)
  {
    Exp2Add(m - l, l - 1);
    Exp2Add(m - l, l);
    assert Exp2(l) == 2 * Exp2(l - 1);
    assert Exp2(m - l) * (2 * Exp2(l - 1)) == 2 * (Exp2(m - l) * Exp2(l - 1));
  }

  // ---------- Meaning of the stages ----------

  /** The rows k, k + L, k + 2L, ... of a column: n of them. */
  function Stride(v: seq<Complex>, L: nat, k: nat, n: nat): (r: seq<Complex>)
    requires k < L && n * L == |v|
    ensures |r| == n
  {
    seq(n, i requires 0 <= i < n => StrideAt(L, k, n, i); v[i * L + k])
  }

  lemma StrideAt(L: nat, k: nat, n: nat, i: nat)
    requires k < L && i < n
    ensures 0 <= i * L && i * L + k < n * L
  {
    RowGap(i, n, L);
  }

  /** After l stages the rows with residue k mod 2^l hold a column whose smaller transform is the
      remaining outputs: output q of that transform is output q*2^l + k of the whole. */
  ghost predicate Holds(x: seq<Complex>, v: seq<Complex>, l: nat, m: nat, root: nat -> Complex)
    requires l <= m && |v| == Exp2(m)
  {
    Exp2Add(m - l, l);
    forall k: nat, q: nat {:trigger Residue(x, v, l, m, root, k, q)} :: k < Exp2(l) && q < Exp2(m - l) ==>
      Residue(x, v, l, m, root, k, q)
  }

  ghost predicate Residue(x: seq<Complex>, v: seq<Complex>, l: nat, m: nat, root: nat -> Complex, k: nat, q: nat)
    requires l <= m && |v| == Exp2(m) && k < Exp2(l)
  {
    Exp2Add(m - l, l);
    q * Exp2(l) >= 0 &&
    Eval(x, Power(root(m), q * Exp2(l) + k)) == Eval(Stride(v, Exp2(l), k, Exp2(m - l)), Power(root(m - l), q))
  }

  /** How one stage rearranges the rows of residue k: sums stay at k, twisted differences go to k + lk. */
  lemma StageStride(v: seq<Complex>, lk: nat, u: seq<Complex>, sign: int, li: nat, w: Complex, k: nat)
    requires lk >= 1 && |v| == 2 * (li * lk) && k < lk
    requires forall i: nat {:trigger Twiddle(u, sign, li, i)} :: i < li ==> Twiddle(u, sign, li, i) == Power(w, i)
    ensures (2 * li) * lk == |v| && li * (2 * lk) == |v|
    ensures var s, r := Stride(v, lk, k, 2 * li), Stage(v, lk, u, sign, li);
            && Stride(r, 2 * lk, k, li) == PairAdd(s[..li], s[li..])
            && Stride(r, 2 * lk, lk + k, li) == Twist(PairSub(s[..li], s[li..]), w)
  {
    hide Add, Sub, Mul, Twiddle, Butterfly;
    DoubleMul(li, lk);
    var s, r := Stride(v, lk, k, 2 * li), Stage(v, lk, u, sign, li);
    forall i: nat | i < li
      ensures Stride(r, 2 * lk, k, li)[i] == Add(s[i], s[li + i])
      ensures Stride(r, 2 * lk, lk + k, li)[i] == Mul(Power(w, i), Sub(s[i], s[li + i]))
    {
      ButterflyAt(v, lk, u, sign, li, i, k);
      StrideAt(2 * lk, k, li, i);
      StrideAt(2 * lk, lk + k, li, i);
      DoubleMul(i, lk);
      AddMul(li, i, lk);
    }
    assert Stride(r, 2 * lk, k, li) == PairAdd(s[..li], s[li..]);
    assert Stride(r, 2 * lk, lk + k, li) == Twist(PairSub(s[..li], s[li..]), w);
  }

  /** One output after a stage, from the outputs 2q and 2q+1 before it. */
  lemma StageResidue(x: seq<Complex>, v: seq<Complex>, l: nat, m: nat, u: seq<Complex>, sign: int,
                     root: nat -> Complex, k: nat, q: nat)
    requires 1 <= l <= m && |v| == Exp2(m) && Roots(root, m) && k < Exp2(l - 1)
    requires forall i: nat {:trigger Twiddle(u, sign, Exp2(m - l), i)} :: i < Exp2(m - l) ==>
               Twiddle(u, sign, Exp2(m - l), i) == Power(root(m - l + 1), i)
    requires Residue(x, v, l - 1, m, root, k, 2 * q) && Residue(x, v, l - 1, m, root, k, 2 * q + 1)
    ensures Exp2(m) == 2 * (Exp2(m - l) * Exp2(l - 1))
    ensures Residue(x, Stage(v, Exp2(l - 1), u, sign, Exp2(m - l)), l, m, root, k, q)
    ensures Residue(x, Stage(v, Exp2(l - 1), u, sign, Exp2(m - l)), l, m, root, Exp2(l - 1) + k, q)
  {
    hide Mul, Eval, Power, Stage, Stride, PairAdd, PairSub, Twist, Twiddle, Roots;
    StageSizes(l, m);
    var lk, li, w := Exp2(l - 1), Exp2(m - l), root(m - l + 1);
    HalfTurn(root, m, m - l);
    RootSquared(root, m, m - l);
    StageStride(v, lk, u, sign, li, w, k);
    Split(Stride(v, lk, k, 2 * li), li, w, q);
    ProductNonNegative(q, lk);
    DoubleMul(q, lk);
    AddMul(2 * q, 1, lk);
  }

  /** One more stage keeps the invariant. */
  lemma StageKeeps(x: seq<Complex>, v: seq<Complex>, l: nat, m: nat, u: seq<Complex>, sign: int, root: nat -> Complex)
    requires 1 <= l <= m && |v| == Exp2(m) && Roots(root, m) && Holds(x, v, l - 1, m, root)
    requires forall i: nat {:trigger Twiddle(u, sign, Exp2(m - l), i)} :: i < Exp2(m - l) ==>
               Twiddle(u, sign, Exp2(m - l), i) == Power(root(m - l + 1), i)
    ensures Exp2(m) == 2 * (Exp2(m - l) * Exp2(l - 1))
    ensures Holds(x, Stage(v, Exp2(l - 1), u, sign, Exp2(m - l)), l, m, root)
  {
    hide Residue, Stage, Twiddle, Power;
    StageSizes(l, m);
    var r := Stage(v, Exp2(l - 1), u, sign, Exp2(m - l));
    forall k: nat, q: nat {:trigger Residue(x, r, l, m, root, k, q)} | k < Exp2(l) && q < Exp2(m - l)
      ensures Residue(x, r, l, m, root, k, q)
    {
      var k0 := if k < Exp2(l - 1) then k else k - Exp2(l - 1);
      assert Residue(x, v, l - 1, m, root, k0, 2 * q) && Residue(x, v, l - 1, m, root, k0, 2 * q + 1);
      StageResidue(x, v, l, m, u, sign, root, k0, q);
    }
  }

  lemma {:induction false} StagesHold(x: seq<Complex>, l: nat, m: nat, u: seq<Complex>, sign: int, root: nat -> Complex)
    requires l <= m && |x| == Exp2(m) && Roots(root, m)
    requires forall s: nat, i: nat {:trigger Twiddle(u, sign, Exp2(s), i)} :: s < m && i < Exp2(s) ==>
               Twiddle(u, sign, Exp2(s), i) == Power(root(s + 1), i)
    ensures Holds(x, Stages(x, l, m, u, sign), l, m, root)
  {
    hide Eval, Power, Stage, Twiddle;
    if l == 0 {
      assert Stride(x, Exp2(0), 0, Exp2(m)) == x;
    } else {
      StagesHold(x, l - 1, m, u, sign, root);
      StageKeeps(x, Stages(x, l - 1, m, u, sign), l, m, u, sign, root);
    }
  }

  /** All m stages together are the discrete Fourier transform. */
  lemma StagesAreTransform(x: seq<Complex>, m: nat, u: seq<Complex>, sign: int, root: nat -> Complex)
    requires |x| == Exp2(m) && Roots(root, m)
    requires forall s: nat, i: nat {:trigger Twiddle(u, sign, Exp2(s), i)} :: s < m && i < Exp2(s) ==>
               Twiddle(u, sign, Exp2(s), i) == Power(root(s + 1), i)
    ensures Stages(x, m, m, u, sign) == Transform(x, root(m))
  {
    hide Eval, Power, Stage, Twiddle, Stages;
    StagesHold(x, m, m, u, sign, root);
    var v := Stages(x, m, m, u, sign);
    forall k: nat | k < |x|
      ensures v[k] == Eval(x, Power(root(m), k))
    {
      assert Residue(x, v, m, m, root, k, 0);
      EvalSingle(Stride(v, Exp2(m), k, 1), Power(root(0), 0));
    }
  }
}
