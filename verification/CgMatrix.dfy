/** The matrix of makea in bomp/benchmark/cg.c as conj_grad uses it: with full windows, the rows that the compressed
    arrays hold are a square symmetric matrix, so that the results about conj_grad apply to it. The random stream
    that makea draws from can be that of randlc. */
module CgMatrix {
  import opened Sparse
  import opened MakeA
  import opened ConjGrad
  import Lcg
  import Random

  /** The rows of a compressed matrix whose first row is 1. */
  ghost function RowsOf(colidx: seq<int>, a: seq<real>, rowstr: seq<int>, n: nat, ts: seq<Triple>): (m: Rows)
    requires Csr(colidx, a, rowstr, n, ts, 1)
    ensures |m| == n && forall j: nat {:trigger m[j]} :: j < n ==> m[j] == RowIn(colidx, a, rowstr, n, ts, j + 1)
  {
    seq(n, j requires 0 <= j < n => RowIn(colidx, a, rowstr, n, ts, j + 1))
  }

  ghost function RowIn(colidx: seq<int>, a: seq<real>, rowstr: seq<int>, n: nat, ts: seq<Triple>,
                       j: nat): (row: seq<Entry>)
    requires Csr(colidx, a, rowstr, n, ts, 1) && 1 <= j <= n
    ensures RowDone(colidx, a, rowstr, ts, 1, j, 1 + |ts|) && row == CsrRow(colidx, a, rowstr, j)
  {
    assert RowDone(colidx, a, rowstr, ts, 1, j, 1 + |ts|);
    CsrRow(colidx, a, rowstr, j)
  }

  lemma RowsStored(colidx: array<int>, a: array<real>, rowstr: array<int>, n: nat, ts: seq<Triple>)
    requires Csr(colidx[..], a[..], rowstr[..], n, ts, 1)
    ensures Stored(colidx, a, rowstr, RowsOf(colidx[..], a[..], rowstr[..], n, ts))
  {
    CsrSize(colidx[..], a[..], rowstr[..], n, ts);
    var m := RowsOf(colidx[..], a[..], rowstr[..], n, ts);
    hide Csr, RowsOf, RowIn;
    forall j: nat {:trigger m[j]} | j < |m|
      ensures StoredRow(colidx, a, rowstr, j, m[j])
    {
      RowStored(colidx, a, rowstr, n, ts, j + 1, m[j]);
    }
  }

  lemma RowStored(colidx: array<int>, a: array<real>, rowstr: array<int>, n: nat, ts: seq<Triple>, j: nat,
                  row: seq<Entry>)
    requires Csr(colidx[..], a[..], rowstr[..], n, ts, 1) && 1 <= j <= n
    requires row == RowIn(colidx[..], a[..], rowstr[..], n, ts, j)
    ensures j + 1 < rowstr.Length && 1 <= rowstr[j] <= rowstr[j + 1] <= colidx.Length && rowstr[j + 1] <= a.Length
    ensures Slice(colidx[..], a[..], rowstr[j], rowstr[j + 1]) == row
  {
    hide Combined, RowOf, Slice, Csr;
    assert RowDone(colidx[..], a[..], rowstr[..], ts, 1, j, 1 + |ts|);
  }

  lemma CsrSize(colidx: seq<int>, a: seq<real>, rowstr: seq<int>, n: nat, ts: seq<Triple>)
    requires Csr(colidx, a, rowstr, n, ts, 1)
    ensures n + 1 < |rowstr|
  {
  }

  /** Looking up a row and a column gives the entry that makea promises, and that matrix is square and symmetric. */
  lemma MadeMatrix(colidx: seq<int>, a: seq<real>, rowstr: seq<int>, n: nat, ts: seq<Triple>, vecs: seq<seq<Entry>>,
                   ratio: real, diagonal: real)
    requires Csr(colidx, a, rowstr, n, ts, 1)
    requires forall k {:trigger ts[k]} :: 0 <= k < |ts| ==> 1 <= ts[k].col <= n
    requires forall r, c {:trigger TripleSum(ts, r, c)} :: 1 <= r <= n && 1 <= c <= n ==>
               TripleSum(ts, r, c) == MatrixEntry(vecs, ratio, diagonal, r, c)
    ensures var m := RowsOf(colidx, a, rowstr, n, ts);
            && (forall i: nat, j: nat {:trigger ColSum(m[i], j + 1)} :: i < n && j < n ==>
                  ColSum(m[i], j + 1) == MatrixEntry(vecs, ratio, diagonal, i + 1, j + 1))
            && Square(m) && Symmetric(m)
  {
    hide TripleSum, ColSum, MatrixEntry, Combined, CsrRow;
    var m := RowsOf(colidx, a, rowstr, n, ts);
    forall i: nat, j: nat {:trigger ColSum(m[i], j + 1)} | i < n && j < n
      ensures ColSum(m[i], j + 1) == MatrixEntry(vecs, ratio, diagonal, i + 1, j + 1)
                == MatrixEntry(vecs, ratio, diagonal, j + 1, i + 1)
    {
      CsrEntry(colidx, a, rowstr, n, ts, 1, i + 1, j + 1);
      MatrixSymmetric(vecs, ratio, diagonal, i + 1, j + 1);
    }
    forall j, k {:trigger m[j][k]} | 0 <= j < n && 0 <= k < |m[j]|
      ensures 1 <= m[j][k].col <= n
    {
      assert RowDone(colidx, a, rowstr, ts, 1, j + 1, 1 + |ts|);
      RowColumns(ts, j + 1, n);
      ColumnInRange(m[j], RowOf(ts, j + 1), n, k);
    }
  }

  /** A combined row has entries only where there were some. */
  lemma ColumnInRange(row: seq<Entry>, es: seq<Entry>, n: nat, k: nat)
    requires Combined(row, es) && k < |row| && forall q {:trigger es[q]} :: 0 <= q < |es| ==> 1 <= es[q].col <= n
    ensures 1 <= row[k].col <= n
  {
    if !(1 <= row[k].col <= n) {
      OtherColumn(es, row[k].col);
    }
  }

  /** The results of randlc from any state are a stream that makea can draw from. */
  lemma RandlcStream(a: int, s: int)
    requires 0 <= s < Lcg.T46
    ensures UnitStream((k: nat) => Random.Unit(Lcg.Iterate(a, s, k + 1)))
  {
    var rnd := (k: nat) => Random.Unit(Lcg.Iterate(a, s, k + 1));
    forall k: nat {:trigger rnd(k)}
      ensures 0.0 <= rnd(k) < 1.0
    {
      UnitBelowOne(Lcg.Iterate(a, s, k + 1));
    }
  }

  lemma UnitBelowOne(n: int)
    requires 0 <= n < Lcg.T46
    ensures 0.0 <= Random.Unit(n) < 1.0
  {
  }
}
