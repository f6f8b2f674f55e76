/** The passes cffts1, cffts2 and cffts3 along the three axes of the cube, the whole transform fft, and
    its inversion (bomp/benchmark/ft.c).  The three passes differ only in which index is transformed, so
    they are one method with the axis as a parameter. */
module FftCube {
  import opened Arith
  import opened ComplexNumbers
  import opened Dft
  import opened Stockham
  import opened Fft

  /** The transformed index: i for cffts1, j for cffts2, k for cffts3. */
  datatype Axis = I | J | K

  /** d[0], d[1], d[2]; arrays are indexed [k, j, i] with k < d2, j < d1, i < d0. */
  datatype Dims = Dims(d0: nat, d1: nat, d2: nat)
  {
    /** Length of a pencil, number of pencils in the blocked direction, and in the outer loop. */
    function Size(a: Axis): nat { match a case I => d0 case J => d1 case K => d2 }
    function Inner(a: Axis): nat { if a.I? then d1 else d0 }
    function Outer(a: Axis): nat { if a.K? then d1 else d2 }

    ghost predicate Fits(x: array3<Complex>) {
      d2 <= x.Length0 && d1 <= x.Length1 && d0 <= x.Length2
    }
  }

  /** Position (o, b, t) of a pass: outer loop, blocked direction, along the pencil. */
  datatype Place = Place(o: nat, b: nat, t: nat)
  {
    function AtK(a: Axis): nat { if a.K? then t else o }
    function AtJ(a: Axis): nat { match a case I => b case J => t case K => o }
    function AtI(a: Axis): nat { if a.I? then t else b }

    ghost predicate In(a: Axis, d: Dims) { o < d.Outer(a) && b < d.Inner(a) && t < d.Size(a) }
  }

  function PlaceOf(a: Axis, k: nat, j: nat, i: nat): Place {
    match a
    case I => Place(k, j, i)
    case J => Place(k, i, j)
    case K => Place(j, i, k)
  }

  /** Places and indices correspond one to one. */
  lemma PlaceIndex(a: Axis, d: Dims, q: Place)
    ensures PlaceOf(a, q.AtK(a), q.AtJ(a), q.AtI(a)) == q
    ensures q.In(a, d) <==> q.AtK(a) < d.d2 && q.AtJ(a) < d.d1 && q.AtI(a) < d.d0
  {
  }

  /** The contents of a cube as a function of k, j, i. */
  type Cube = (nat, nat, nat) -> Complex

  ghost predicate Agrees(x: array3<Complex>, d: Dims, c: Cube)
    requires d.Fits(x)
    reads x
  {
    forall k: nat, j: nat, i: nat {:trigger x[k, j, i]} {:trigger c(k, j, i)} ::
      k < d.d2 && j < d.d1 && i < d.d0 ==> x[k, j, i] == c(k, j, i)
  }

  function Pencil(c: Cube, a: Axis, n: nat, o: nat, b: nat): (p: seq<Complex>)
    ensures |p| == n
  {
    seq(n, t requires 0 <= t => var q := Place(o, b, t); c(q.AtK(a), q.AtJ(a), q.AtI(a)))
  }

  /** Every pencil of the cube along axis a replaced by its transform. */
  function AlongAxis(c: Cube, a: Axis, n: nat, w: Complex): Cube {
    (k: nat, j: nat, i: nat) => var q := PlaceOf(a, k, j, i); Eval(Pencil(c, a, n, q.o, q.b), Power(w, q.t))
  }

  // ---------- One pass ----------

  ghost function Pencils(c: Cube, a: Axis, n: nat, o: nat, jj: nat, fftblock: nat): (p: seq<seq<Complex>>)
    ensures |p| == fftblock && forall b {:trigger p[b]} :: 0 <= b < fftblock ==>
              p[b] == Pencil(c, a, n, o, jj + b) && |p[b]| == n
  {
    seq(fftblock, b requires 0 <= b < fftblock => Pencil(c, a, n, o, jj + b))
  }

  /** The copy of one block of pencils into the scratch array. */
  method CopyIn(a: Axis, d: Dims, o: nat, jj: nat, fftblock: nat, x: array3<Complex>, y0: array2<Complex>,
                ghost c: Cube)
    requires d.Fits(x) && o < d.Outer(a) && jj + fftblock <= d.Inner(a)
    requires d.Size(a) <= y0.Length0 && fftblock <= y0.Length1
    requires forall b: nat, t: nat {:trigger Place(o, b, t)} :: jj <= b < jj + fftblock && t < d.Size(a) ==>
               var q := Place(o, b, t); x[q.AtK(a), q.AtJ(a), q.AtI(a)] == c(q.AtK(a), q.AtJ(a), q.AtI(a))
    modifies y0
    ensures Holds2(y0, d.Size(a), Pencils(c, a, d.Size(a), o, jj, fftblock))
  {
    var n := d.Size(a);
    for t := 0 to n
      invariant forall p: nat, b: nat {:trigger y0[p, b]} :: p < t && b < fftblock ==>
                  y0[p, b] == Pencils(c, a, n, o, jj, fftblock)[b][p]
    {
      for b := 0 to fftblock
        invariant forall p: nat, b': nat {:trigger y0[p, b']} :: p <= t && b' < fftblock && (p < t || b' < b) ==>
                    y0[p, b'] == Pencils(c, a, n, o, jj, fftblock)[b'][p]
      {
        var q := Place(o, jj + b, t);
        assert Pencils(c, a, n, o, jj, fftblock)[b][t] == c(q.AtK(a), q.AtJ(a), q.AtI(a));
        y0[t, b] := x[q.AtK(a), q.AtJ(a), q.AtI(a)];
      }
    }
  }

  /** The copy of one transformed block out to the cube; nothing else in the cube changes. */
  method CopyOut(a: Axis, d: Dims, o: nat, jj: nat, fftblock: nat, xout: array3<Complex>, y0: array2<Complex>)
    requires d.Fits(xout) && o < d.Outer(a) && jj + fftblock <= d.Inner(a)
    requires d.Size(a) <= y0.Length0 && fftblock <= y0.Length1
    modifies xout
    ensures forall k: nat, j: nat, i: nat {:trigger xout[k, j, i]} ::
              k < xout.Length0 && j < xout.Length1 && i < xout.Length2 ==>
              var q := PlaceOf(a, k, j, i);
              xout[k, j, i] ==
                if q.o == o && jj <= q.b < jj + fftblock && q.t < d.Size(a) then y0[q.t, q.b - jj]
                else old(xout[k, j, i])
  {
    var n := d.Size(a);
    for t := 0 to n
      invariant forall k: nat, j: nat, i: nat {:trigger xout[k, j, i]} ::
                  k < xout.Length0 && j < xout.Length1 && i < xout.Length2 ==>
                  var q := PlaceOf(a, k, j, i);
                  xout[k, j, i] ==
                    if q.o == o && jj <= q.b < jj + fftblock && q.t < t then y0[q.t, q.b - jj]
                    else old(xout[k, j, i])
    {
      for b := 0 to fftblock
        invariant forall k: nat, j: nat, i: nat {:trigger xout[k, j, i]} ::
                    k < xout.Length0 && j < xout.Length1 && i < xout.Length2 ==>
                    var q := PlaceOf(a, k, j, i);
                    xout[k, j, i] == if q.o == o && jj <= q.b < jj + fftblock && (q.t < t || (q.t == t && q.b < jj + b))
                                     then y0[q.t, q.b - jj] else old(xout[k, j, i])
      {
        var q := Place(o, jj + b, t);
        xout[q.AtK(a), q.AtJ(a), q.AtI(a)] := y0[t, b];
      }
    }
  }

  /** The pencils a pass transforms: all of them up to the last full block. */
  function Covered(d: Dims, a: Axis, fftblock: nat): nat
    requires fftblock >= 1
  {
    d.Inner(a) - d.Inner(a) % fftblock
  }

  /** A cube after the pass has finished outer rows below o and, in row o, pencils below b. */
  ghost predicate Progress(x: array3<Complex>, d: Dims, a: Axis, fftblock: nat, before: Cube, after: Cube, o: nat,
                           b: nat)
    requires d.Fits(x) && fftblock >= 1
    reads x
  {
    forall k: nat, j: nat, i: nat {:trigger x[k, j, i]} :: k < d.d2 && j < d.d1 && i < d.d0 ==>
      var q := PlaceOf(a, k, j, i);
      x[k, j, i] ==
        if q.b < Covered(d, a, fftblock) && (q.o < o || (q.o == o && q.b < b)) then after(k, j, i)
        else before(k, j, i)
  }

  ghost predicate SameCube(c: Cube, c': Cube, d: Dims) {
    forall k: nat, j: nat, i: nat {:trigger c(k, j, i)} {:trigger c'(k, j, i)} ::
      k < d.d2 && j < d.d1 && i < d.d0 ==> c(k, j, i) == c'(k, j, i)
  }

  /** The pencils still to be done can be read from x, whether or not x is being overwritten. */
  ghost predicate Readable(x: array3<Complex>, xout: array3<Complex>, d: Dims, c: Cube, before: Cube)
    requires d.Fits(x)
    reads x
  {
    if x == xout then SameCube(c, before, d) else Agrees(x, d, c)
  }

  /** Read one block of pencils, transform it, write it back. */
  method TransformBlock(sign: int, a: Axis, d: Dims, m: nat, o: nat, jj: nat, fftblock: nat, u: array<Complex>,
                        x: array3<Complex>, xout: array3<Complex>, y0: array2<Complex>, y1: array2<Complex>,
                        ghost c: Cube, ghost root: nat -> Complex, ghost mx: nat) returns (ok: bool)
    requires u.Length >= 1 && u[0].re == mx as real && Table(u[..], root, mx) && d.Size(a) == Exp2(m)
    requires d.Fits(x) && d.Fits(xout) && y0 != y1 && d.Size(a) <= y0.Length0 && d.Size(a) <= y1.Length0
    requires fftblock <= y0.Length1 && fftblock <= y1.Length1 && o < d.Outer(a) && jj + fftblock <= d.Inner(a)
    requires forall b: nat, t: nat {:trigger Place(o, b, t)} :: jj <= b < jj + fftblock && t < d.Size(a) ==>
               var q := Place(o, b, t); x[q.AtK(a), q.AtJ(a), q.AtI(a)] == c(q.AtK(a), q.AtJ(a), q.AtI(a))
    modifies xout, y0, y1
    ensures ok <==> (sign == 1 || sign == -1) && 1 <= m <= mx
    ensures ok ==>
              forall k: nat, j: nat, i: nat {:trigger xout[k, j, i]} :: k < d.d2 && j < d.d1 && i < d.d0 ==>
                var q := PlaceOf(a, k, j, i);
                xout[k, j, i] == if q.o == o && jj <= q.b < jj + fftblock
                                 then AlongAxis(c, a, d.Size(a), Signed(root, sign)(m))(k, j, i) else old(xout[k, j, i])
  {
    hide Eval, Power, Table;
    var n := d.Size(a);
    CopyIn(a, d, o, jj, fftblock, x, y0, c);
    ghost var pencils := Pencils(c, a, n, o, jj, fftblock);
    ok := Cfftz(sign, m, n, fftblock, u, y0, y1, pencils, root, mx);
    if ok {
      ghost var w := Signed(root, sign)(m);
      assert forall b: nat, t: nat {:trigger y0[t, b]} :: b < fftblock && t < n ==>
               y0[t, b] == TransformAll(pencils, w)[b][t] == Eval(Pencil(c, a, n, o, jj + b), Power(w, t));
      CopyOut(a, d, o, jj, fftblock, xout, y0);
    }
  }

  /** The body of the block loop, in terms of the progress of the pass. */
  method OneBlock(sign: int, a: Axis, d: Dims, m: nat, o: nat, jj: nat, fftblock: nat, u: array<Complex>,
                  x: array3<Complex>, xout: array3<Complex>, y0: array2<Complex>, y1: array2<Complex>, ghost c: Cube,
                  ghost before: Cube, ghost root: nat -> Complex, ghost mx: nat) returns (ok: bool)
    requires u.Length >= 1 && u[0].re == mx as real && Table(u[..], root, mx) && d.Size(a) == Exp2(m) && fftblock >= 1
    requires d.Fits(x) && d.Fits(xout) && y0 != y1 && d.Size(a) <= y0.Length0 && d.Size(a) <= y1.Length0
    requires fftblock <= y0.Length1 && fftblock <= y1.Length1 && o < d.Outer(a)
    requires jj + fftblock <= Covered(d, a, fftblock)
    requires Readable(x, xout, d, c, before)
    requires Progress(xout, d, a, fftblock, before, AlongAxis(c, a, d.Size(a), Signed(root, sign)(m)), o, jj)
    modifies xout, y0, y1
    ensures ok <==> (sign == 1 || sign == -1) && 1 <= m <= mx
    ensures x != xout ==> Agrees(x, d, c)
    ensures ok ==> Progress(xout, d, a, fftblock, before, AlongAxis(c, a, d.Size(a), Signed(root, sign)(m)), o,
                            jj + fftblock)
  {
    hide AlongAxis, Table;
    forall b: nat, t: nat {:trigger Place(o, b, t)} | jj <= b < jj + fftblock && t < d.Size(a)
      ensures var q := Place(o, b, t); x[q.AtK(a), q.AtJ(a), q.AtI(a)] == c(q.AtK(a), q.AtJ(a), q.AtI(a))
    {
      PlaceIndex(a, d, Place(o, b, t));
    }
    ok := TransformBlock(sign, a, d, m, o, jj, fftblock, u, x, xout, y0, y1, c, root, mx);
  }

  /** cffts1, cffts2 and cffts3: every covered pencil of xout becomes the transform of the pencil of x, each
      from the original contents and so exactly once; xout may be x itself. */
  method Cffts(sign: int, a: Axis, d: Dims, fftblock: nat, u: array<Complex>, x: array3<Complex>, xout: array3<Complex>,
               y0: array2<Complex>, y1: array2<Complex>, ghost c: Cube, ghost before: Cube, ghost m: nat,
               ghost root: nat -> Complex, ghost mx: nat)
    returns (ok: bool)
    requires u.Length >= 1 && u[0].re == mx as real && Table(u[..], root, mx) && d.Size(a) == Exp2(m) && fftblock >= 1
    requires d.Fits(x) && d.Fits(xout) && y0 != y1 && d.Size(a) <= y0.Length0 && d.Size(a) <= y1.Length0
    requires fftblock <= y0.Length1 && fftblock <= y1.Length1
    requires Agrees(x, d, c) && Agrees(xout, d, before)
    modifies xout, y0, y1
    ensures (sign == 1 || sign == -1) && 1 <= m <= mx ==> ok
    ensures x != xout ==> Agrees(x, d, c)
    ensures ok ==> Progress(xout, d, a, fftblock, before, AlongAxis(c, a, d.Size(a), Signed(root, sign)(m)),
                            d.Outer(a), 0)
  {
    hide AlongAxis, Table;
    ghost var after := AlongAxis(c, a, d.Size(a), Signed(root, sign)(m));
    var logd := Ilog2(d.Size(a));
    assert Readable(x, xout, d, c, before);
    for o := 0 to d.Outer(a)
      invariant Progress(xout, d, a, fftblock, before, after, o, 0) && Readable(x, xout, d, c, before)
    {
      hide Progress, SameCube, Agrees;
      var jj := 0;
      while jj <= d.Inner(a) - fftblock
        invariant 0 <= jj <= Covered(d, a, fftblock) && jj % fftblock == 0
        invariant Progress(xout, d, a, fftblock, before, after, o, jj) && Readable(x, xout, d, c, before)
      {
        BlockFits(d.Inner(a), fftblock, jj);
        ok := OneBlock(sign, a, d, logd, o, jj, fftblock, u, x, xout, y0, y1, c, before, root, mx);
        if !ok { return; }
        jj := jj + fftblock;
      }
      BlockEnd(d.Inner(a), fftblock, jj);
      NextRow(xout, d, a, fftblock, before, after, o);
    }
    ok := true;
  }

  lemma NextRow(x: array3<Complex>, d: Dims, a: Axis, fftblock: nat, before: Cube, after: Cube, o: nat)
    requires d.Fits(x) && fftblock >= 1
    requires Progress(x, d, a, fftblock, before, after, o, Covered(d, a, fftblock))
    ensures Progress(x, d, a, fftblock, before, after, o + 1, 0)
  {
  }

  lemma BlockFits(inner: nat, block: nat, jj: nat)
    requires block >= 1 && jj % block == 0 && jj + block <= inner
    ensures jj + block <= inner - inner % block && (jj + block) % block == 0
  {
    var a, b := jj / block, inner / block;
    assert jj == a * block && inner == b * block + inner % block;
    assert (a + 1) * block == a * block + block;
    QuotientUnique(jj + block, block, a + 1, 0);
    QuotientMonotone(jj + block, inner, block);
    if a + 1 < b {
      RowGap(a + 1, b, block);
    }
  }

  lemma BlockEnd(inner: nat, block: nat, jj: nat)
    requires block >= 1 && jj % block == 0 && jj <= inner - inner % block && jj + block > inner
    ensures jj == inner - inner % block
  {
    QuotientUnique(inner, block, jj / block, inner - jj);
  }

  // ---------- The whole transform ----------

  /** The exponents of the three dimensions, which fft_init's table must cover. */
  datatype Logs = Logs(m0: nat, m1: nat, m2: nat)
  {
    function At(a: Axis): nat { match a case I => m0 case J => m1 case K => m2 }

    ghost predicate For(d: Dims, mx: nat) {
      forall a: Axis {:trigger At(a)} :: d.Size(a) == Exp2(At(a)) && 1 <= At(a) <= mx
    }
  }

  function Pass(c: Cube, a: Axis, d: Dims, l: Logs, root: nat -> Complex, sign: int): Cube {
    AlongAxis(c, a, d.Size(a), Signed(root, sign)(l.At(a)))
  }

  /** What fft leaves: x first when forward, z first when backward. */
  function Spectrum(c: Cube, d: Dims, l: Logs, root: nat -> Complex): Cube {
    Pass(Pass(Pass(c, I, d, l, root, 1), J, d, l, root, 1), K, d, l, root, 1)
  }

  function InverseSpectrum(c: Cube, d: Dims, l: Logs, root: nat -> Complex): Cube {
    Pass(Pass(Pass(c, K, d, l, root, -1), J, d, l, root, -1), I, d, l, root, -1)
  }

  // ---------- The transform of the cube as a sum ----------

  /** f(0) + ... + f(n-1) */
  function SumTo(n: nat, f: nat -> Complex): Complex {
    if n == 0 then ZERO else Add(SumTo(n - 1, f), f(n - 1))
  }

  /** The term of element (k', j', i') in output (k, j, i), for the roots w0, w1, w2 of the three axes. */
  function Term(c: Cube, w0: Complex, w1: Complex, w2: Complex, k: nat, j: nat, i: nat, k': nat, j': nat,
                i': nat): Complex {
    Mul(Mul(Mul(c(k', j', i'), Power(w0, i * i')), Power(w1, j * j')), Power(w2, k * k'))
  }

  function SumI(c: Cube, d: Dims, w0: Complex, w1: Complex, w2: Complex, k: nat, j: nat, i: nat, k': nat,
                j': nat): Complex {
    SumTo(d.d0, (i': nat) => Term(c, w0, w1, w2, k, j, i, k', j', i'))
  }

  function SumJI(c: Cube, d: Dims, w0: Complex, w1: Complex, w2: Complex, k: nat, j: nat, i: nat, k': nat): Complex {
    SumTo(d.d1, (j': nat) => SumI(c, d, w0, w1, w2, k, j, i, k', j'))
  }

  /** Output (k, j, i) of the three-dimensional discrete Fourier transform: the sum over all k', j', i' of
      c(k', j', i') * w0^(i*i') * w1^(j*j') * w2^(k*k'). */
  function DftAt(c: Cube, d: Dims, w0: Complex, w1: Complex, w2: Complex, k: nat, j: nat, i: nat): Complex {
    SumTo(d.d2, (k': nat) => SumJI(c, d, w0, w1, w2, k, j, i, k'))
  }

  lemma {:induction false} SumTimes(n: nat, f: nat -> Complex, z: Complex, g: nat -> Complex)
    requires forall t: nat {:trigger f(t)} {:trigger g(t)} :: t < n ==> g(t) == Mul(f(t), z)
    ensures SumTo(n, g) == Mul(SumTo(n, f), z)
  {
    hide Add, Mul;
    if n == 0 {
      MulLaws(z, z);
    } else {
      SumTimes(n - 1, f, z, g);
      Distribute(z, SumTo(n - 1, f), f(n - 1));
      MulLaws(z, SumTo(n, f));
      MulLaws(z, SumTo(n - 1, f));
      MulLaws(z, f(n - 1));
    }
  }

  lemma {:induction false} SumOfSums(n: nat, f: nat -> Complex, g: nat -> Complex, h: nat -> Complex)
    requires forall t: nat {:trigger h(t)} :: t < n ==> h(t) == Add(f(t), g(t))
    ensures SumTo(n, h) == Add(SumTo(n, f), SumTo(n, g))
  {
    hide Add;
    if n == 0 {
      AddLaws(ZERO, ZERO, ZERO);
    } else {
      SumOfSums(n - 1, f, g, h);
      Interchange(SumTo(n - 1, f), SumTo(n - 1, g), f(n - 1), g(n - 1));
    }
  }

  lemma {:induction false} SumOfZeros(n: nat, f: nat -> Complex)
    requires forall t: nat {:trigger f(t)} :: t < n ==> f(t) == ZERO
    ensures SumTo(n, f) == ZERO
  {
    hide Add;
    if n > 0 {
      SumOfZeros(n - 1, f);
      AddLaws(ZERO, ZERO, ZERO);
    }
  }

  /** Row sums and column sums of f, whose rows are f(a) and whose columns are g(b), add up to the same. */
  lemma {:induction false} SumSwap(n: nat, m: nat, f: nat -> nat -> Complex, g: nat -> nat -> Complex,
                                   row: nat -> Complex, col: nat -> Complex)
    requires forall a: nat {:trigger row(a)} :: a < n ==> row(a) == SumTo(m, f(a))
    requires forall b: nat {:trigger col(b)} :: b < m ==> col(b) == SumTo(n, g(b))
    requires forall a: nat, b: nat {:trigger f(a)(b)} {:trigger g(b)(a)} :: a < n && b < m ==> f(a)(b) == g(b)(a)
    ensures SumTo(n, row) == SumTo(m, col)
  {
    hide Add;
    if n == 0 {
      SumOfZeros(m, col);
    } else {
      var col' := (b: nat) => SumTo(n - 1, g(b));
      SumSwap(n - 1, m, f, g, row, col');
      forall b: nat | b < m
        ensures col(b) == Add(col'(b), f(n - 1)(b))
      {
        assert f(n - 1)(b) == g(b)(n - 1);
      }
      SumOfSums(m, col', f(n - 1), col);
      assert row(n - 1) == SumTo(m, f(n - 1));
    }
  }

  lemma {:induction false} DftSumIs(x: seq<Complex>, w: Complex, k: nat, n: nat, f: nat -> Complex)
    requires n <= |x| && forall t: nat {:trigger f(t)} :: t < n ==> f(t) == Mul(x[t], Power(w, k * t))
    ensures DftSum(x, w, k, n) == SumTo(n, f)
  {
    hide Mul, Add, Power;
    if n > 0 {
      DftSumIs(x, w, k, n - 1, f);
      assert f(n - 1) == Mul(x[n - 1], Power(w, k * (n - 1)));
    }
  }

  /** One output of a pass is a sum along the pencil. */
  lemma AlongIsSum(c: Cube, a: Axis, n: nat, w: Complex, k: nat, j: nat, i: nat, f: nat -> Complex)
    requires PlaceOf(a, k, j, i).t < n
    requires forall t: nat {:trigger f(t)} :: t < n ==>
               var q := PlaceOf(a, k, j, i); var r := Place(q.o, q.b, t);
               f(t) == Mul(c(r.AtK(a), r.AtJ(a), r.AtI(a)), Power(w, q.t * t))
    ensures AlongAxis(c, a, n, w)(k, j, i) == SumTo(n, f)
  {
    hide Mul, Add, Power, Eval, DftSum, SumTo;
    var q := PlaceOf(a, k, j, i);
    var p := Pencil(c, a, n, q.o, q.b);
    TransformIsSum(p, w, q.t);
    forall t: nat {:trigger f(t)} | t < n
      ensures f(t) == Mul(p[t], Power(w, q.t * t))
    {
    }
    DftSumIs(p, w, q.t, n, f);
  }

  lemma InnerSum(c: Cube, d: Dims, w0: Complex, w1: Complex, w2: Complex, k: nat, j: nat, i: nat, k': nat, j': nat)
    requires i < d.d0
    ensures SumI(c, d, w0, w1, w2, k, j, i, k', j') ==
              Mul(Mul(AlongAxis(c, I, d.d0, w0)(k', j', i), Power(w1, j * j')), Power(w2, k * k'))
  {
    hide Mul, Power, SumTo, AlongAxis;
    var a := (t: nat) => Mul(c(k', j', t), Power(w0, i * t));
    var b := (t: nat) => Mul(a(t), Power(w1, j * j'));
    AlongIsSum(c, I, d.d0, w0, k', j', i, a);
    SumTimes(d.d0, a, Power(w1, j * j'), b);
    SumTimes(d.d0, b, Power(w2, k * k'), (i': nat) => Term(c, w0, w1, w2, k, j, i, k', j', i'));
  }

  lemma MiddleSum(c: Cube, d: Dims, w0: Complex, w1: Complex, w2: Complex, k: nat, j: nat, i: nat, k': nat)
    requires i < d.d0 && j < d.d1
    ensures SumJI(c, d, w0, w1, w2, k, j, i, k') ==
              Mul(AlongAxis(AlongAxis(c, I, d.d0, w0), J, d.d1, w1)(k', j, i), Power(w2, k * k'))
  {
    hide Mul, Power, SumTo, AlongAxis, SumI;
    var f1 := AlongAxis(c, I, d.d0, w0);
    var a := (t: nat) => Mul(f1(k', t, i), Power(w1, j * t));
    var b := (j': nat) => SumI(c, d, w0, w1, w2, k, j, i, k', j');
    AlongIsSum(f1, J, d.d1, w1, k', j, i, a);
    forall j': nat | j' < d.d1
      ensures b(j') == Mul(a(j'), Power(w2, k * k'))
    {
      InnerSum(c, d, w0, w1, w2, k, j, i, k', j');
    }
    SumTimes(d.d1, a, Power(w2, k * k'), b);
  }

  /** The passes along i, j and k, in this order, are the transform. */
  lemma ForwardIsDft(c: Cube, d: Dims, w0: Complex, w1: Complex, w2: Complex, k: nat, j: nat, i: nat)
    requires k < d.d2 && j < d.d1 && i < d.d0
    ensures AlongAxis(AlongAxis(AlongAxis(c, I, d.d0, w0), J, d.d1, w1), K, d.d2, w2)(k, j, i) ==
              DftAt(c, d, w0, w1, w2, k, j, i)
  {
    hide Mul, Power, SumTo, AlongAxis, SumJI;
    var f2 := AlongAxis(AlongAxis(c, I, d.d0, w0), J, d.d1, w1);
    var a := (k': nat) => SumJI(c, d, w0, w1, w2, k, j, i, k');
    forall k': nat {:trigger a(k')} | k' < d.d2
      ensures a(k') == Mul(f2(k', j, i), Power(w2, k * k'))
    {
      MiddleSum(c, d, w0, w1, w2, k, j, i, k');
    }
    AlongIsSum(f2, K, d.d2, w2, k, j, i, a);
  }

  // ---------- The sums in the order of the backward transform ----------

  function SumK(c: Cube, d: Dims, w0: Complex, w1: Complex, w2: Complex, k: nat, j: nat, i: nat, j': nat,
                i': nat): Complex {
    SumTo(d.d2, (k': nat) => Term(c, w0, w1, w2, k, j, i, k', j', i'))
  }

  function SumJK(c: Cube, d: Dims, w0: Complex, w1: Complex, w2: Complex, k: nat, j: nat, i: nat, i': nat): Complex {
    SumTo(d.d1, (j': nat) => SumK(c, d, w0, w1, w2, k, j, i, j', i'))
  }

  lemma Factors(a: Complex, x: Complex, y: Complex, z: Complex)
    ensures Mul(Mul(Mul(a, x), y), z) == Mul(Mul(Mul(a, z), y), x)
  {
    hide Mul;
    MulAssoc(a, x, y);
    MulAssoc(a, Mul(x, y), z);
    MulAssoc(a, z, y);
    MulAssoc(a, Mul(z, y), x);
    MulLaws(Mul(x, y), z);
    MulLaws(x, y);
    MulAssoc(z, y, x);
  }

  lemma InnerSumBack(c: Cube, d: Dims, w0: Complex, w1: Complex, w2: Complex, k: nat, j: nat, i: nat, j': nat, i': nat)
    requires k < d.d2
    ensures SumK(c, d, w0, w1, w2, k, j, i, j', i') ==
              Mul(Mul(AlongAxis(c, K, d.d2, w2)(k, j', i'), Power(w1, j * j')), Power(w0, i * i'))
  {
    hide Mul, Power, SumTo, AlongAxis;
    var p1, p0 := Power(w1, j * j'), Power(w0, i * i');
    var a := (t: nat) => Mul(c(t, j', i'), Power(w2, k * t));
    var b := (t: nat) => Mul(a(t), p1);
    var e := (k': nat) => Term(c, w0, w1, w2, k, j, i, k', j', i');
    AlongIsSum(c, K, d.d2, w2, k, j', i', a);
    SumTimes(d.d2, a, p1, b);
    forall k': nat {:trigger e(k')} | k' < d.d2
      ensures e(k') == Mul(b(k'), p0)
    {
      Factors(c(k', j', i'), p0, p1, Power(w2, k * k'));
    }
    SumTimes(d.d2, b, p0, e);
  }

  lemma MiddleSumBack(c: Cube, d: Dims, w0: Complex, w1: Complex, w2: Complex, k: nat, j: nat, i: nat, i': nat)
    requires k < d.d2 && j < d.d1
    ensures SumJK(c, d, w0, w1, w2, k, j, i, i') ==
              Mul(AlongAxis(AlongAxis(c, K, d.d2, w2), J, d.d1, w1)(k, j, i'), Power(w0, i * i'))
  {
    hide Mul, Power, SumTo, AlongAxis, SumK;
    var b1 := AlongAxis(c, K, d.d2, w2);
    var a := (t: nat) => Mul(b1(k, t, i'), Power(w1, j * t));
    var b := (j': nat) => SumK(c, d, w0, w1, w2, k, j, i, j', i');
    AlongIsSum(b1, J, d.d1, w1, k, j, i', a);
    forall j': nat | j' < d.d1
      ensures b(j') == Mul(a(j'), Power(w0, i * i'))
    {
      InnerSumBack(c, d, w0, w1, w2, k, j, i, j', i');
    }
    SumTimes(d.d1, a, Power(w0, i * i'), b);
  }

  /** The sum over j' alone. */
  function SumJ(c: Cube, d: Dims, w0: Complex, w1: Complex, w2: Complex, k: nat, j: nat, i: nat, k': nat,
                i': nat): Complex {
    SumTo(d.d1, (j': nat) => Term(c, w0, w1, w2, k, j, i, k', j', i'))
  }

  lemma SwapJK(c: Cube, d: Dims, w0: Complex, w1: Complex, w2: Complex, k: nat, j: nat, i: nat, i': nat)
    ensures SumJK(c, d, w0, w1, w2, k, j, i, i') == SumTo(d.d2, (k': nat) => SumJ(c, d, w0, w1, w2, k, j, i, k', i'))
  {
    hide SumTo, Term;
    SumSwap(d.d1, d.d2,
            (j': nat) => ((k': nat) => Term(c, w0, w1, w2, k, j, i, k', j', i')),
            (k': nat) => ((j': nat) => Term(c, w0, w1, w2, k, j, i, k', j', i')),
            (j': nat) => SumK(c, d, w0, w1, w2, k, j, i, j', i'),
            (k': nat) => SumJ(c, d, w0, w1, w2, k, j, i, k', i'));
  }

  lemma SwapJI(c: Cube, d: Dims, w0: Complex, w1: Complex, w2: Complex, k: nat, j: nat, i: nat, k': nat)
    ensures SumJI(c, d, w0, w1, w2, k, j, i, k') == SumTo(d.d0, (i': nat) => SumJ(c, d, w0, w1, w2, k, j, i, k', i'))
  {
    hide SumTo, Term;
    SumSwap(d.d1, d.d0,
            (j': nat) => ((i': nat) => Term(c, w0, w1, w2, k, j, i, k', j', i')),
            (i': nat) => ((j': nat) => Term(c, w0, w1, w2, k, j, i, k', j', i')),
            (j': nat) => SumI(c, d, w0, w1, w2, k, j, i, k', j'),
            (i': nat) => SumJ(c, d, w0, w1, w2, k, j, i, k', i'));
  }

  lemma SumsReordered(c: Cube, d: Dims, w0: Complex, w1: Complex, w2: Complex, k: nat, j: nat, i: nat)
    ensures SumTo(d.d0, (i': nat) => SumJK(c, d, w0, w1, w2, k, j, i, i')) == DftAt(c, d, w0, w1, w2, k, j, i)
  {
    hide SumTo, SumJ, SumJK, SumJI;
    forall i': nat
      ensures SumJK(c, d, w0, w1, w2, k, j, i, i') ==
                SumTo(d.d2, (k': nat) => SumJ(c, d, w0, w1, w2, k, j, i, k', i'))
    {
      SwapJK(c, d, w0, w1, w2, k, j, i, i');
    }
    forall k': nat
      ensures SumJI(c, d, w0, w1, w2, k, j, i, k') ==
                SumTo(d.d0, (i': nat) => SumJ(c, d, w0, w1, w2, k, j, i, k', i'))
    {
      SwapJI(c, d, w0, w1, w2, k, j, i, k');
    }
    SumSwap(d.d0, d.d2,
            (i': nat) => ((k': nat) => SumJ(c, d, w0, w1, w2, k, j, i, k', i')),
            (k': nat) => ((i': nat) => SumJ(c, d, w0, w1, w2, k, j, i, k', i')),
            (i': nat) => SumJK(c, d, w0, w1, w2, k, j, i, i'),
            (k': nat) => SumJI(c, d, w0, w1, w2, k, j, i, k'));
  }

  /** The passes along k, j and i, in this order, are the transform, too. */
  lemma BackwardIsDft(c: Cube, d: Dims, w0: Complex, w1: Complex, w2: Complex, k: nat, j: nat, i: nat)
    requires k < d.d2 && j < d.d1 && i < d.d0
    ensures AlongAxis(AlongAxis(AlongAxis(c, K, d.d2, w2), J, d.d1, w1), I, d.d0, w0)(k, j, i) ==
              DftAt(c, d, w0, w1, w2, k, j, i)
  {
    hide Mul, Power, SumTo, AlongAxis, SumJK, DftAt;
    var b2 := AlongAxis(AlongAxis(c, K, d.d2, w2), J, d.d1, w1);
    var a := (i': nat) => SumJK(c, d, w0, w1, w2, k, j, i, i');
    forall i': nat {:trigger a(i')} | i' < d.d0
      ensures a(i') == Mul(b2(k, j, i'), Power(w0, i * i'))
    {
      MiddleSumBack(c, d, w0, w1, w2, k, j, i, i');
    }
    AlongIsSum(b2, I, d.d0, w0, k, j, i, a);
    SumsReordered(c, d, w0, w1, w2, k, j, i);
  }

  /** What fft leaves when forward is the transform with the tabulated roots. */
  lemma SpectrumIsDft(c: Cube, d: Dims, l: Logs, root: nat -> Complex, k: nat, j: nat, i: nat)
    requires k < d.d2 && j < d.d1 && i < d.d0
    ensures Spectrum(c, d, l, root)(k, j, i) == DftAt(c, d, root(l.m0), root(l.m1), root(l.m2), k, j, i)
  {
    hide AlongAxis, DftAt;
    ForwardIsDft(c, d, root(l.m0), root(l.m1), root(l.m2), k, j, i);
  }

  /** What it leaves when backward is the transform with their conjugates. */
  lemma InverseSpectrumIsDft(c: Cube, d: Dims, l: Logs, root: nat -> Complex, k: nat, j: nat, i: nat)
    requires k < d.d2 && j < d.d1 && i < d.d0
    ensures InverseSpectrum(c, d, l, root)(k, j, i) ==
              DftAt(c, d, Conj(root(l.m0)), Conj(root(l.m1)), Conj(root(l.m2)), k, j, i)
  {
    hide AlongAxis, DftAt;
    BackwardIsDft(c, d, Conj(root(l.m0)), Conj(root(l.m1)), Conj(root(l.m2)), k, j, i);
  }

  lemma ProgressDone(x: array3<Complex>, d: Dims, a: Axis, fftblock: nat, before: Cube, after: Cube)
    requires d.Fits(x) && fftblock >= 1 && d.Inner(a) % fftblock == 0
    requires Progress(x, d, a, fftblock, before, after, d.Outer(a), 0)
    ensures Agrees(x, d, after)
  {
  }

  ghost function Snapshot(x: array3<Complex>, d: Dims): (c: Cube)
    requires d.Fits(x)
    reads x
    ensures Agrees(x, d, c)
  {
    var s := seq(d.d2, k requires 0 <= k < d.d2 reads x =>
               seq(d.d1, j requires 0 <= j < d.d1 reads x =>
                 seq(d.d0, i requires 0 <= i < d.d0 reads x => x[k, j, i])));
    (k: nat, j: nat, i: nat) => if k < |s| && j < |s[k]| && i < |s[k][j]| then s[k][j][i] else ZERO
  }

  /** A pass over a cube whose pencils all fall into full blocks. */
  method FullPass(sign: int, a: Axis, d: Dims, fftblock: nat, u: array<Complex>, x: array3<Complex>,
                  xout: array3<Complex>, y0: array2<Complex>, y1: array2<Complex>, ghost c: Cube, ghost l: Logs,
                  ghost root: nat -> Complex, ghost mx: nat) returns (ok: bool)
    requires u.Length >= 1 && u[0].re == mx as real && Table(u[..], root, mx) && l.For(d, mx) && fftblock >= 1
    requires d.Fits(x) && d.Fits(xout) && y0 != y1 && d.Size(a) <= y0.Length0 && d.Size(a) <= y1.Length0
    requires fftblock <= y0.Length1 && fftblock <= y1.Length1 && d.Inner(a) % fftblock == 0
    requires Agrees(x, d, c) && (sign == 1 || sign == -1)
    modifies xout, y0, y1
    ensures ok && Agrees(xout, d, Pass(c, a, d, l, root, sign))
  {
    ghost var before := Snapshot(xout, d);
    ok := Cffts(sign, a, d, fftblock, u, x, xout, y0, y1, c, before, l.At(a), root, mx);
    ProgressDone(xout, d, a, fftblock, before, Pass(c, a, d, l, root, sign));
  }

  lemma IndexPlace(a: Axis, k: nat, j: nat, i: nat)
    ensures var q := PlaceOf(a, k, j, i); q.AtK(a) == k && q.AtJ(a) == j && q.AtI(a) == i
  {
  }

  /** Every element of c' in the cube is s times the one of c. */
  ghost predicate ScaledBy(c': Cube, c: Cube, d: Dims, s: Complex) {
    forall k: nat, j: nat, i: nat {:trigger c'(k, j, i)} :: k < d.d2 && j < d.d1 && i < d.d0 ==>
         c'(k, j, i) == Mul(s, c(k, j, i))
  }

  lemma PassScaled(c': Cube, c: Cube, a: Axis, d: Dims, l: Logs, root: nat -> Complex, sign: int, s: Complex)
    requires ScaledBy(c', c, d, s)
    ensures ScaledBy(Pass(c', a, d, l, root, sign), Pass(c, a, d, l, root, sign), d, s)
  {
    hide Eval, Power, Mul;
    var n, w := d.Size(a), Signed(root, sign)(l.At(a));
    forall k: nat, j: nat, i: nat | k < d.d2 && j < d.d1 && i < d.d0
      ensures Pass(c', a, d, l, root, sign)(k, j, i) == Mul(s, Pass(c, a, d, l, root, sign)(k, j, i))
    {
      var q := PlaceOf(a, k, j, i);
      forall t: nat | t < n
        ensures Pencil(c', a, n, q.o, q.b)[t] == Mul(s, Pencil(c, a, n, q.o, q.b)[t])
      {
        var r := Place(q.o, q.b, t);
        PlaceIndex(a, d, r);
        assert c'(r.AtK(a), r.AtJ(a), r.AtI(a)) == Mul(s, c(r.AtK(a), r.AtJ(a), r.AtI(a)));
      }
      assert Pencil(c', a, n, q.o, q.b) == Scale(s, Pencil(c, a, n, q.o, q.b));
      EvalScale(s, Pencil(c, a, n, q.o, q.b), Power(w, q.t));
    }
  }

  /** A backward pass undoes the forward pass along the same axis up to the size. */
  lemma PassInverse(c: Cube, a: Axis, d: Dims, l: Logs, root: nat -> Complex, mx: nat)
    requires Roots(root, mx) && l.For(d, mx)
    ensures ScaledBy(Pass(Pass(c, a, d, l, root, 1), a, d, l, root, -1), c, d, FromInt(d.Size(a)))
  {
    hide Eval, Power, Mul, FromInt;
    var n, m := d.Size(a), l.At(a);
    var w, v := Signed(root, 1)(m), Signed(root, -1)(m);
    var f := Pass(c, a, d, l, root, 1);
    SignedRootsUpTo(root, 1, mx, m);
    SignedRootsUpTo(root, -1, mx, m);
    SignedInverses(root, mx);
    forall k: nat, j: nat, i: nat | k < d.d2 && j < d.d1 && i < d.d0
      ensures Pass(f, a, d, l, root, -1)(k, j, i) == Mul(FromInt(n), c(k, j, i))
    {
      var q := PlaceOf(a, k, j, i);
      var p := Pencil(c, a, n, q.o, q.b);
      forall t: nat | t < n
        ensures Pencil(f, a, n, q.o, q.b)[t] == Transform(p, w)[t]
      {
        PlaceIndex(a, d, Place(q.o, q.b, t));
      }
      assert Pencil(f, a, n, q.o, q.b) == Transform(p, w);
      Inversion(p, m, Signed(root, 1), Signed(root, -1));
      IndexPlace(a, k, j, i);
      PlaceIndex(a, d, q);
      assert p[q.t] == c(k, j, i);
      assert Pass(f, a, d, l, root, -1)(k, j, i) == Transform(Pencil(f, a, n, q.o, q.b), v)[q.t]
          == Scale(FromInt(n), p)[q.t];
    }
  }

  lemma ScaledTwice(a: Cube, b: Cube, c: Cube, d: Dims, m: int, n: int)
    requires ScaledBy(a, b, d, FromInt(m)) && ScaledBy(b, c, d, FromInt(n))
    ensures ScaledBy(a, c, d, FromInt(m * n))
  {
    hide Mul, FromInt;
    forall k: nat, j: nat, i: nat | k < d.d2 && j < d.d1 && i < d.d0
      ensures a(k, j, i) == Mul(FromInt(m * n), c(k, j, i))
    {
      MulAssoc(FromInt(m), FromInt(n), c(k, j, i));
      FromIntLaws(m, n, c(k, j, i));
      assert b(k, j, i) == Mul(FromInt(n), c(k, j, i));
    }
  }

  /** The backward transform of the forward transform is the cube times NX*NY*NZ. */
  lemma FftRoundTrip(c: Cube, d: Dims, l: Logs, root: nat -> Complex, mx: nat)
    requires Roots(root, mx) && l.For(d, mx)
    ensures ScaledBy(InverseSpectrum(Spectrum(c, d, l, root), d, l, root), c, d, FromInt(d.d2 * d.d1 * d.d0))
  {
    hide Pass, FromInt, ScaledBy, Roots;
    var f1 := Pass(c, I, d, l, root, 1);
    var f2 := Pass(f1, J, d, l, root, 1);
    var b1 := Pass(Pass(f2, K, d, l, root, 1), K, d, l, root, -1);
    var b2 := Pass(b1, J, d, l, root, -1);
    PassInverse(f2, K, d, l, root, mx);
    UndoOne(b1, f1, J, d, l, root, mx, d.d2);
    UndoOne(b2, c, I, d, l, root, mx, d.d2 * d.d1);
  }

  /** If b is m times a forward pass of c, the backward pass of b is m times the size times c. */
  lemma UndoOne(b: Cube, c: Cube, a: Axis, d: Dims, l: Logs, root: nat -> Complex, mx: nat, m: int)
    requires Roots(root, mx) && l.For(d, mx) && ScaledBy(b, Pass(c, a, d, l, root, 1), d, FromInt(m))
    ensures ScaledBy(Pass(b, a, d, l, root, -1), c, d, FromInt(m * d.Size(a)))
  {
    hide Pass, FromInt, ScaledBy, Roots;
    PassScaled(b, Pass(c, a, d, l, root, 1), a, d, l, root, -1, FromInt(m));
    PassInverse(c, a, d, l, root, mx);
    ScaledTwice(Pass(b, a, d, l, root, -1), Pass(Pass(c, a, d, l, root, 1), a, d, l, root, -1), c, d, m, d.Size(a));
  }

  /** What is in x2 is the three-dimensional transform, with the roots when forward and their conjugates when
      backward. */
  ghost predicate Transformed(x2: array3<Complex>, d: Dims, l: Logs, c: Cube, root: nat -> Complex, dir: int)
    requires d.Fits(x2)
    reads x2
  {
    forall k: nat, j: nat, i: nat {:trigger x2[k, j, i]} :: k < d.d2 && j < d.d1 && i < d.d0 ==>
      x2[k, j, i] ==
        if dir == 1 then DftAt(c, d, root(l.m0), root(l.m1), root(l.m2), k, j, i)
        else DftAt(c, d, Conj(root(l.m0)), Conj(root(l.m1)), Conj(root(l.m2)), k, j, i)
  }

  lemma AgreesTransformed(x2: array3<Complex>, d: Dims, l: Logs, c: Cube, root: nat -> Complex, dir: int)
    requires d.Fits(x2)
    requires Agrees(x2, d, if dir == 1 then Spectrum(c, d, l, root) else InverseSpectrum(c, d, l, root))
    ensures Transformed(x2, d, l, c, root, dir)
  {
    hide Spectrum, InverseSpectrum, DftAt;
    forall k: nat, j: nat, i: nat | k < d.d2 && j < d.d1 && i < d.d0
      ensures x2[k, j, i] ==
                if dir == 1 then DftAt(c, d, root(l.m0), root(l.m1), root(l.m2), k, j, i)
                else DftAt(c, d, Conj(root(l.m0)), Conj(root(l.m1)), Conj(root(l.m2)), k, j, i)
    {
      if dir == 1 {
        SpectrumIsDft(c, d, l, root, k, j, i);
      } else {
        InverseSpectrumIsDft(c, d, l, root, k, j, i);
      }
    }
  }

  /** fft: the transform of x1 along all three axes ends up in x2; x1 is overwritten on the way. */
  method FftCubeTransform(dir: int, d: Dims, fftblock: nat, fftblockpad: nat, u: array<Complex>, x1: array3<Complex>,
                          x2: array3<Complex>, ghost c: Cube, ghost l: Logs, ghost root: nat -> Complex,
                          ghost mx: nat) returns (ok: bool)
    requires u.Length >= 1 && u[0].re == mx as real && Table(u[..], root, mx) && l.For(d, mx)
    requires 1 <= fftblock <= fftblockpad && d.d1 % fftblock == 0 && d.d0 % fftblock == 0
    requires d.d1 <= d.d0 && d.d2 <= d.d0
    requires x1 != x2 && d.Fits(x1) && d.Fits(x2) && Agrees(x1, d, c)
    modifies x1, x2
    ensures ok && Agrees(x2, d, if dir == 1 then Spectrum(c, d, l, root) else InverseSpectrum(c, d, l, root))
    ensures Transformed(x2, d, l, c, root, dir)
  {
    hide Pass, Transformed;
    var y0 := new Complex[d.d0, fftblockpad];
    var y1 := new Complex[d.d0, fftblockpad];
    if dir == 1 {
      ghost var f1 := Pass(c, I, d, l, root, 1);
      ok := FullPass(1, I, d, fftblock, u, x1, x1, y0, y1, c, l, root, mx);
      ok := FullPass(1, J, d, fftblock, u, x1, x1, y0, y1, f1, l, root, mx);
      ok := FullPass(1, K, d, fftblock, u, x1, x2, y0, y1, Pass(f1, J, d, l, root, 1), l, root, mx);
    } else {
      ghost var b1 := Pass(c, K, d, l, root, -1);
      ok := FullPass(-1, K, d, fftblock, u, x1, x1, y0, y1, c, l, root, mx);
      ok := FullPass(-1, J, d, fftblock, u, x1, x1, y0, y1, b1, l, root, mx);
      ok := FullPass(-1, I, d, fftblock, u, x1, x2, y0, y1, Pass(b1, J, d, l, root, -1), l, root, mx);
    }
    AgreesTransformed(x2, d, l, c, root, dir);
  }
}
