/** sparse in bomp/benchmark/cg.c: a list of (row, column, value) triples with duplicates becomes a
    compressed row matrix, by a bucket sort on the rows and an in-place compaction of each row.
    Arrays are used from index 1, as in the source. */
module Sparse {

  datatype Triple = Triple(row: int, col: int, val: real)
  datatype Entry = Entry(col: int, val: real)

  // ---------- What the result must mean ----------

  /** The entry (r, c) of the matrix that a triple list denotes. */
  ghost function TripleSum(ts: seq<Triple>, r: int, c: int): real {
    if ts == [] then 0.0
    else var t := ts[|ts| - 1];
      TripleSum(ts[..|ts| - 1], r, c) + if t.row == r && t.col == c then t.val else 0.0
  }

  /** The entries of one row, in list order. */
  ghost function RowOf(ts: seq<Triple>, r: int): seq<Entry> {
    if ts == [] then []
    else var t := ts[|ts| - 1];
      RowOf(ts[..|ts| - 1], r) + if t.row == r then [Entry(t.col, t.val)] else []
  }

  ghost function ColSum(es: seq<Entry>, c: int): real {
    if es == [] then 0.0
    else var e := es[|es| - 1];
      ColSum(es[..|es| - 1], c) + if e.col == c then e.val else 0.0
  }

  lemma ColSumAppend(es: seq<Entry>, e: Entry, c: int)
    ensures ColSum(es + [e], c) == ColSum(es, c) + if e.col == c then e.val else 0.0
  {
    assert (es + [e])[..|es|] == es;
  }

  lemma {:induction false} RowSums(ts: seq<Triple>, r: int, c: int)
    ensures ColSum(RowOf(ts, r), c) == TripleSum(ts, r, c)
  {
    if ts != [] {
      var t, pre := ts[|ts| - 1], ts[..|ts| - 1];
      RowSums(pre, r, c);
      ColSumAppend(RowOf(pre, r), Entry(t.col, t.val), c);
      assert t.row != r ==> RowOf(ts, r) == RowOf(pre, r);
    }
  }

  /** A row with each column at most once, no zero, and for every column the sum of es. */
  ghost predicate Combined(row: seq<Entry>, es: seq<Entry>) {
    && (forall p, q {:trigger row[p], row[q]} :: 0 <= p < q < |row| ==> row[p].col != row[q].col)
    && (forall p {:trigger row[p]} :: 0 <= p < |row| ==> row[p].val != 0.0 && row[p].val == ColSum(es, row[p].col))
    && (forall c {:trigger ColSum(es, c)} :: ColSum(es, c) != 0.0 ==> exists p :: 0 <= p < |row| && row[p].col == c)
  }

  /** In a combined row, looking a column up and summing it are the same. */
  lemma {:induction false} SumOfDistinct(row: seq<Entry>, c: int)
    requires forall p, q {:trigger row[p], row[q]} :: 0 <= p < q < |row| ==> row[p].col != row[q].col
    ensures forall p {:trigger row[p]} :: 0 <= p < |row| && row[p].col == c ==> ColSum(row, c) == row[p].val
    ensures (forall p {:trigger row[p]} :: 0 <= p < |row| ==> row[p].col != c) ==> ColSum(row, c) == 0.0
  {
    if row != [] {
      var pre := row[..|row| - 1];
      assert forall p {:trigger pre[p]} :: 0 <= p < |pre| ==> pre[p] == row[p];
      SumOfDistinct(pre, c);
    }
  }

  lemma CombinedSums(row: seq<Entry>, es: seq<Entry>, c: int)
    requires Combined(row, es)
    ensures ColSum(row, c) == ColSum(es, c)
  {
    SumOfDistinct(row, c);
    if ColSum(es, c) != 0.0 {
      var p :| 0 <= p < |row| && row[p].col == c;
    }
  }

  // ---------- Row starts ----------

  /** The position of the first entry of row j after sorting: 1 plus the entries of the rows before. */
  ghost function Start(ts: seq<Triple>, first: int, j: nat): nat {
    if j <= 1 then 1 else Start(ts, first, j - 1) + |RowOf(ts, first + j - 2)|
  }

  lemma {:induction false} StartMonotone(ts: seq<Triple>, first: int, i: nat, j: nat)
    requires 1 <= i <= j
    ensures 1 <= Start(ts, first, i) <= Start(ts, first, j)
    ensures i < j ==> Start(ts, first, i) + |RowOf(ts, first + i - 1)| <= Start(ts, first, j)
  {
    if i < j {
      StartMonotone(ts, first, i, j - 1);
    } else if i > 1 {
      StartMonotone(ts, first, i - 1, i - 1);
    }
  }

  /** One more triple moves the starts of the rows after its own by one. */
  lemma {:induction false} StartExtend(ts: seq<Triple>, t: Triple, first: int, j: nat)
    requires first <= t.row
    ensures Start(ts + [t], first, j) == Start(ts, first, j) + if t.row < first + j - 1 then 1 else 0
  {
    if j > 1 {
      StartExtend(ts, t, first, j - 1);
      hide Start;
      assert (ts + [t])[..|ts|] == ts;
      assert |RowOf(ts + [t], first + j - 2)| == |RowOf(ts, first + j - 2)| + if t.row == first + j - 2 then 1 else 0;
      StartNext(ts, first, j);
      StartNext(ts + [t], first, j);
    }
  }

  lemma StartNext(ts: seq<Triple>, first: int, j: nat)
    requires j > 1
    ensures Start(ts, first, j) == Start(ts, first, j - 1) + |RowOf(ts, first + j - 2)|
  {
  }

  lemma {:induction false} StartBound(ts: seq<Triple>, first: int, j: nat)
    requires forall k {:trigger ts[k]} :: 0 <= k < |ts| ==> first <= ts[k].row
    ensures Start(ts, first, j) <= 1 + |ts|
  {
    if ts == [] {
      StartEmpty(first, j);
    } else {
      var pre := ts[..|ts| - 1];
      assert ts == pre + [ts[|ts| - 1]];
      StartBound(pre, first, j);
      StartExtend(pre, ts[|ts| - 1], first, j);
    }
  }

  lemma {:induction false} StartEmpty(first: int, j: nat)
    ensures Start([], first, j) == 1
  {
    if j > 1 {
      StartEmpty(first, j - 1);
    }
  }

  /** The row of a prefix is a prefix of the row. */
  lemma {:induction false} RowPrefix(ts: seq<Triple>, p: nat, r: int)
    requires p <= |ts|
    ensures RowOf(ts[..p], r) <= RowOf(ts, r)
    ensures p < |ts| && ts[p].row == r ==> RowOf(ts[..p + 1], r) == RowOf(ts[..p], r) + [Entry(ts[p].col, ts[p].val)]
    ensures p < |ts| && ts[p].row != r ==> RowOf(ts[..p + 1], r) == RowOf(ts[..p], r)
    decreases |ts|
  {
    if p < |ts| {
      assert ts[..p + 1][..p] == ts[..p];
      var pre := ts[..|ts| - 1];
      assert pre[..p] == ts[..p];
      RowPrefix(pre, p, r);
    } else {
      assert ts[..p] == ts;
    }
  }

  // ---------- The arrays ----------

  /** arow, acol, aelt hold the list ts; its rows and columns are within bounds. */
  ghost predicate Input(arow: array<int>, acol: array<int>, aelt: array<real>, ts: seq<Triple>, firstrow: int,
                        lastrow: int, n: int)
    reads arow, acol, aelt
  {
    && |ts| < arow.Length && |ts| < acol.Length && |ts| < aelt.Length
    && (forall k {:trigger ts[k]} :: 0 <= k < |ts| ==>
          ts[k] == Triple(arow[k + 1], acol[k + 1], aelt[k + 1]) && firstrow <= ts[k].row <= lastrow
              && 1 <= ts[k].col <= n)
  }

  /** Positions lo .. hi-1 of colidx and a. */
  ghost function Slice(colidx: seq<int>, a: seq<real>, lo: nat, hi: nat): (es: seq<Entry>)
    requires lo <= hi <= |colidx| && hi <= |a|
    ensures |es| == hi - lo
  {
    seq(hi - lo, k requires 0 <= k < hi - lo => Entry(colidx[lo + k], a[lo + k]))
  }

  /** The counting pass: rowstr[j+1] becomes the number of triples in row j. */
  method CountRows(rowstr: array<int>, nrows: nat, firstrow: int, arow: array<int>, nnza: nat, ghost ts: seq<Triple>)
    requires nrows + 1 < rowstr.Length && rowstr != arow && |ts| == nnza < arow.Length
    requires forall k {:trigger ts[k]} :: 0 <= k < nnza ==>
               arow[k + 1] == ts[k].row && firstrow <= ts[k].row < firstrow + nrows
    requires forall j {:trigger rowstr[j]} :: 1 <= j <= nrows + 1 ==> rowstr[j] == 0
    modifies rowstr
    ensures forall j {:trigger rowstr[j]} :: 2 <= j <= nrows + 1 ==> rowstr[j] == |RowOf(ts, firstrow + j - 2)|
  {
    forall r
      ensures RowOf(ts[..0], r) == []
    {
    }
    hide RowOf;
    for nza := 1 to nnza + 1
      invariant forall j {:trigger rowstr[j]} :: 2 <= j <= nrows + 1 ==>
                rowstr[j] == |RowOf(ts[..nza - 1], firstrow + j - 2)|
    {
      var j := (arow[nza] - firstrow + 1) + 1;
      assert ts[nza - 1].row == arow[nza] == firstrow + j - 2;
      CountOneMore(ts, nza - 1);
      rowstr[j] := rowstr[j] + 1;
    }
    assert ts[..nnza] == ts;
  }

  lemma CountOneMore(ts: seq<Triple>, p: nat)
    requires p < |ts|
    ensures forall r {:trigger RowOf(ts[..p + 1], r)} ::
              |RowOf(ts[..p + 1], r)| == |RowOf(ts[..p], r)| + if ts[p].row == r then 1 else 0
  {
    forall r {:trigger RowOf(ts[..p + 1], r)}
      ensures |RowOf(ts[..p + 1], r)| == |RowOf(ts[..p], r)| + if ts[p].row == r then 1 else 0
    {
      RowPrefix(ts, p, r);
    }
  }

  /** The running sums: rowstr[j] becomes the start of row j. */
  method RowStarts(rowstr: array<int>, nrows: nat, firstrow: int, ghost ts: seq<Triple>)
    requires nrows + 1 < rowstr.Length
    requires forall j {:trigger rowstr[j]} :: 2 <= j <= nrows + 1 ==> rowstr[j] == |RowOf(ts, firstrow + j - 2)|
    modifies rowstr
    ensures forall j {:trigger rowstr[j]} :: 1 <= j <= nrows + 1 ==> rowstr[j] == Start(ts, firstrow, j)
  {
    StartEmptyPrefix(ts, firstrow);
    hide Start, RowOf;
    rowstr[1] := 1;
    for j := 2 to nrows + 2
      invariant forall i {:trigger rowstr[i]} :: 1 <= i < j && i <= nrows + 1 ==> rowstr[i] == Start(ts, firstrow, i)
      invariant forall i {:trigger rowstr[i]} :: j <= i <= nrows + 1 ==> rowstr[i] == |RowOf(ts, firstrow + i - 2)|
    {
      StartNext(ts, firstrow, j);
      rowstr[j] := rowstr[j] + rowstr[j - 1];
    }
  }

  /** Row j's part of the first p triples is in place, and rowstr[j] points behind it. */
  ghost predicate RowPlaced(colidx: seq<int>, a: seq<real>, rowstr: seq<int>, ts: seq<Triple>, p: nat, firstrow: int,
                            j: nat)
    requires p <= |ts| < |colidx| && |ts| < |a| && 1 <= j < |rowstr|
  {
    && rowstr[j] == Start(ts, firstrow, j) + |RowOf(ts[..p], firstrow + j - 1)| <= 1 + |ts|
    && Slice(colidx, a, Start(ts, firstrow, j), rowstr[j]) == RowOf(ts[..p], firstrow + j - 1)
  }

  ghost predicate Bucketed(colidx: seq<int>, a: seq<real>, rowstr: seq<int>, ts: seq<Triple>, p: nat, firstrow: int,
                           nrows: nat)
    requires p <= |ts| < |colidx| && |ts| < |a| && nrows + 1 < |rowstr|
  {
    forall j: nat {:trigger RowPlaced(colidx, a, rowstr, ts, p, firstrow, j)} :: 1 <= j <= nrows ==>
      RowPlaced(colidx, a, rowstr, ts, p, firstrow, j)
  }

  /** Putting triple p where rowstr points keeps every row in place. */
  lemma PlaceKeeps(colidx: seq<int>, a: seq<real>, rowstr: seq<int>, ts: seq<Triple>, p: nat, firstrow: int,
                   nrows: nat, j: nat)
    requires p < |ts| < |colidx| && |ts| < |a| && nrows + 1 < |rowstr|
    requires Bucketed(colidx, a, rowstr, ts, p, firstrow, nrows)
    requires forall k {:trigger ts[k]} :: 0 <= k < |ts| ==> firstrow <= ts[k].row
    requires 1 <= j <= nrows && ts[p].row == firstrow + j - 1
    ensures 1 <= rowstr[j] <= |ts|
    ensures Bucketed(colidx[rowstr[j] := ts[p].col], a[rowstr[j] := ts[p].val], rowstr[j := rowstr[j] + 1], ts,
                     p + 1, firstrow, nrows)
  {
    hide Start, RowOf;
    var k := rowstr[j];
    assert RowPlaced(colidx, a, rowstr, ts, p, firstrow, j);
    RowPrefix(ts, p, ts[p].row);
    RowPrefix(ts, p + 1, ts[p].row);
    StartMonotone(ts, firstrow, j, j + 1);
    StartBound(ts, firstrow, j + 1);
    var colidx', a', rowstr' := colidx[k := ts[p].col], a[k := ts[p].val], rowstr[j := k + 1];
    forall i: nat {:trigger RowPlaced(colidx', a', rowstr', ts, p + 1, firstrow, i)} | 1 <= i <= nrows
      ensures RowPlaced(colidx', a', rowstr', ts, p + 1, firstrow, i)
    {
      assert RowPlaced(colidx, a, rowstr, ts, p, firstrow, i);
      RowPrefix(ts, p, firstrow + i - 1);
      RowPrefix(ts, p + 1, firstrow + i - 1);
      if i < j {
        StartMonotone(ts, firstrow, i, j);
      } else if j < i {
        StartMonotone(ts, firstrow, j, i);
      }
      assert i != j ==>
          Slice(colidx', a', Start(ts, firstrow, i), rowstr'[i])
          == Slice(colidx, a, Start(ts, firstrow, i), rowstr[i]);
    }
  }

  /** After the sort and the shift of rowstr: row j occupies the positions from its start to the next. */
  ghost predicate Sorted(colidx: seq<int>, a: seq<real>, ts: seq<Triple>, firstrow: int, j: nat)
    requires |ts| < |colidx| && |ts| < |a| && j >= 1
  {
    && Start(ts, firstrow, j) <= Start(ts, firstrow, j + 1) <= 1 + |ts|
    && Slice(colidx, a, Start(ts, firstrow, j), Start(ts, firstrow, j + 1)) == RowOf(ts, firstrow + j - 1)
  }

  /** The bucket sort on the row index, and the shift of rowstr that follows it. */
  method BucketSort(colidx: array<int>, a: array<real>, rowstr: array<int>, n: nat, nrows: nat, firstrow: int,
                    arow: array<int>, acol: array<int>, aelt: array<real>, nnza: nat, ghost ts: seq<Triple>)
    requires n + 1 < rowstr.Length && nrows <= n && |ts| == nnza < colidx.Length && nnza < a.Length
    requires Input(arow, acol, aelt, ts, firstrow, firstrow + nrows - 1, n)
    requires colidx != rowstr && colidx != arow && colidx != acol && rowstr != arow && rowstr != acol && a != aelt
    requires forall j {:trigger rowstr[j]} :: 1 <= j <= nrows + 1 ==> rowstr[j] == Start(ts, firstrow, j)
    modifies colidx, a, rowstr
    ensures forall j: nat {:trigger rowstr[j]} :: 1 <= j <= nrows + 1 ==> rowstr[j] == Start(ts, firstrow, j)
    ensures forall j: nat {:trigger Sorted(colidx[..], a[..], ts, firstrow, j)} :: 1 <= j <= nrows ==>
              Sorted(colidx[..], a[..], ts, firstrow, j)
  {
    hide Start, RowOf;
    BucketStart(colidx[..], a[..], rowstr[..], ts, firstrow, nrows);
    for nza := 1 to nnza + 1
      invariant Input(arow, acol, aelt, ts, firstrow, firstrow + nrows - 1, n)
      invariant Bucketed(colidx[..], a[..], rowstr[..], ts, nza - 1, firstrow, nrows)
    {
      hide Bucketed;
      ghost var t := ts[nza - 1];
      var j := arow[nza] - firstrow + 1;
      PlaceKeeps(colidx[..], a[..], rowstr[..], ts, nza - 1, firstrow, nrows, j);
      ghost var c, v, r := colidx[..], a[..], rowstr[..];
      var k := rowstr[j];
      a[k] := aelt[nza];
      colidx[k] := acol[nza];
      rowstr[j] := rowstr[j] + 1;
      assert colidx[..] == c[k := t.col] && a[..] == v[k := t.val] && rowstr[..] == r[j := k + 1];
    }
    BucketEnd(colidx[..], a[..], rowstr[..], ts, firstrow, nrows);
    ghost var c, v := colidx[..], a[..];
    for i := 0 to nrows
      invariant colidx[..] == c && a[..] == v
      invariant forall j: nat {:trigger rowstr[j]} :: 1 <= j <= nrows - i ==> rowstr[j] == Start(ts, firstrow, j + 1)
      invariant forall j: nat {:trigger rowstr[j]} :: nrows - i + 1 < j <= nrows + 1 ==>
                rowstr[j] == Start(ts, firstrow, j)
    {
      var j := nrows - i;
      rowstr[j + 1] := rowstr[j];
    }
    rowstr[1] := 1;
    StartEmptyPrefix(ts, firstrow);
  }

  lemma StartEmptyPrefix(ts: seq<Triple>, firstrow: int)
    ensures Start(ts, firstrow, 1) == 1
  {
  }

  lemma BucketStart(colidx: seq<int>, a: seq<real>, rowstr: seq<int>, ts: seq<Triple>, firstrow: int, nrows: nat)
    requires |ts| < |colidx| && |ts| < |a| && nrows + 1 < |rowstr|
    requires forall k {:trigger ts[k]} :: 0 <= k < |ts| ==> firstrow <= ts[k].row
    requires forall j {:trigger rowstr[j]} :: 1 <= j <= nrows + 1 ==> rowstr[j] == Start(ts, firstrow, j)
    ensures Bucketed(colidx, a, rowstr, ts, 0, firstrow, nrows)
  {
    forall j: nat | 1 <= j <= nrows
      ensures RowPlaced(colidx, a, rowstr, ts, 0, firstrow, j)
    {
      StartBound(ts, firstrow, j);
      assert ts[..0] == [] && RowOf([], firstrow + j - 1) == [];
    }
  }

  lemma BucketEnd(colidx: seq<int>, a: seq<real>, rowstr: seq<int>, ts: seq<Triple>, firstrow: int, nrows: nat)
    requires |ts| < |colidx| && |ts| < |a| && nrows + 1 < |rowstr|
    requires Bucketed(colidx, a, rowstr, ts, |ts|, firstrow, nrows)
    requires forall k {:trigger ts[k]} :: 0 <= k < |ts| ==> firstrow <= ts[k].row
    ensures forall j: nat {:trigger rowstr[j]} :: 1 <= j <= nrows ==> rowstr[j] == Start(ts, firstrow, j + 1)
    ensures forall j: nat {:trigger Sorted(colidx, a, ts, firstrow, j)} :: 1 <= j <= nrows ==>
              Sorted(colidx, a, ts, firstrow, j)
  {
    assert ts[..|ts|] == ts;
    forall j: nat | 1 <= j <= nrows
      ensures rowstr[j] == Start(ts, firstrow, j + 1) && Sorted(colidx, a, ts, firstrow, j)
    {
      assert RowPlaced(colidx, a, rowstr, ts, |ts|, firstrow, j);
      StartBound(ts, firstrow, j + 1);
      assert Start(ts, firstrow, j + 1) == Start(ts, firstrow, j) + |RowOf(ts, firstrow + j - 1)|;
    }
  }

  // ---------- Combining the entries of one row ----------

  /** The two workspaces in one array, as makea passes them: mark is iv[1..n], nzloc is iv[n+1..2n]. */
  ghost predicate Clear(x: seq<real>, iv: seq<int>, n: nat) {
    && |x| > n && |iv| > 2 * n
    && forall i {:trigger x[i]} {:trigger iv[i]} :: 1 <= i <= n ==> x[i] == 0.0 && iv[i] == 0
  }

  ghost predicate Distinct(s: seq<int>) {
    forall p, q {:trigger s[p], s[q]} :: 0 <= p < q < |s| ==> s[p] != s[q]
  }

  /** While a row is gathered: x holds the column sums of es, and loc lists the marked columns once each;
      a column with a nonzero sum is among them. */
  ghost predicate Gathered(x: seq<real>, iv: seq<int>, n: nat, es: seq<Entry>, loc: seq<int>) {
    && |x| > n && |iv| > 2 * n && |loc| <= |es| && Distinct(loc)
    && (forall q {:trigger loc[q]} :: 0 <= q < |loc| ==> 1 <= loc[q] <= n)
    && (forall i {:trigger x[i]} :: 1 <= i <= n ==> x[i] == ColSum(es, i) && (x[i] != 0.0 ==> i in loc))
    && (forall i {:trigger iv[i]} :: 1 <= i <= n ==> (iv[i] != 0 <==> i in loc))
  }

  lemma DistinctBound(s: seq<int>, n: nat)
    requires Distinct(s) && forall q {:trigger s[q]} :: 0 <= q < |s| ==> 1 <= s[q] <= n
    ensures |s| <= n
  {
    DistinctCount(s);
    RangeCount((set i | i in s), n);
  }

  lemma {:induction false} DistinctCount(s: seq<int>)
    requires Distinct(s)
    ensures |set i | i in s| == |s|
  {
    if s != [] {
      var pre, i := s[..|s| - 1], s[|s| - 1];
      assert forall q {:trigger pre[q]} :: 0 <= q < |pre| ==> pre[q] == s[q];
      DistinctCount(pre);
      assert s == pre + [i] && i !in pre;
      assert (set j | j in s) == (set j | j in pre) + {i};
    }
  }

  lemma {:induction false} RangeCount(s: set<int>, n: nat)
    requires forall i {:trigger i in s} :: i in s ==> 1 <= i <= n
    ensures |s| <= n
  {
    if n == 0 {
      assert forall i :: i !in s;
      assert s == {};
    } else {
      RangeCount(s - {n}, n - 1);
      if n in s {
        assert |s - {n}| == |s| - 1;
      } else {
        assert s - {n} == s;
      }
    }
  }

  /** Adding one entry to the sums, and marking its column if that makes it nonzero for the first time. */
  lemma GatherStep(x: seq<real>, iv: seq<int>, n: nat, es: seq<Entry>, loc: seq<int>, e: Entry)
    requires Gathered(x, iv, n, es, loc) && 1 <= e.col <= n
    ensures |loc| <= n
    ensures var x' := x[e.col := x[e.col] + e.val];
            if iv[e.col] == 0 && x'[e.col] != 0.0
            then |loc| < n && Gathered(x', iv[e.col := 1][n + |loc| + 1 := e.col], n, es + [e], loc + [e.col])
            else Gathered(x', iv, n, es + [e], loc)
  {
    var x' := x[e.col := x[e.col] + e.val];
    DistinctBound(loc, n);
    forall i | 1 <= i <= n
      ensures x'[i] == ColSum(es + [e], i)
    {
      ColSumAppend(es, e, i);
    }
    if iv[e.col] == 0 && x'[e.col] != 0.0 {
      assert e.col !in loc;
      DistinctBound(loc + [e.col], n);
    }
  }

  /** The body of the first inner loop. */
  method GatherOne(x: array<real>, iv: array<int>, n: nat, i: int, v: real, nzrow: nat, ghost es: seq<Entry>,
                   ghost loc: seq<int>) returns (count: nat)
    requires 1 <= i <= n && |loc| == nzrow <= n && Gathered(x[..], iv[..], n, es, loc)
    requires loc == iv[..][n + 1..n + 1 + nzrow]
    modifies x, iv
    ensures nzrow <= count <= n && x.Length > n && iv.Length > 2 * n
    ensures Gathered(x[..], iv[..], n, es + [Entry(i, v)], iv[..][n + 1..n + 1 + count])
  {
    ghost var xs, ivs := x[..], iv[..];
    GatherStep(xs, ivs, n, es, loc, Entry(i, v));
    hide Gathered;
    count := nzrow;
    x[i] := x[i] + v;
    assert x[..] == xs[i := xs[i] + v];
    if iv[i] == 0 && x[i] != 0.0 {
      count := count + 1;
      NoteColumn(iv, n, i, count, loc);
    } else {
      assert iv[..] == ivs;
    }
  }

  /** Column i is marked and listed at nzloc[count]. */
  method NoteColumn(iv: array<int>, n: nat, i: int, count: nat, ghost loc: seq<int>)
    requires 1 <= i <= n && 1 <= count <= n && iv.Length > 2 * n && loc == iv[..][n + 1..n + count]
    modifies iv
    ensures iv[..] == old(iv[..])[i := 1][n + count := i]
    ensures iv[..][n + 1..n + 1 + count] == loc + [i]
  {
    iv[i] := 1;
    iv[n + count] := i;
  }

  /** The first inner loop: positions lo .. hi-1 of the sorted arrays are added up in x. */
  method GatherRow(colidx: array<int>, a: array<real>, x: array<real>, iv: array<int>, n: nat, lo: nat, hi: nat)
    returns (nzrow: nat)
    requires colidx != iv && a != x && lo <= hi <= colidx.Length && hi <= a.Length
    requires Clear(x[..], iv[..], n)
    requires forall k {:trigger colidx[k]} :: lo <= k < hi ==> 1 <= colidx[k] <= n
    modifies x, iv
    ensures nzrow <= n && x.Length > n && iv.Length > 2 * n
    ensures Gathered(x[..], iv[..], n, Slice(colidx[..], a[..], lo, hi), iv[..][n + 1..n + 1 + nzrow])
  {
    nzrow := 0;
    ghost var cs, vs := colidx[..], a[..];
    ghost var es := Slice(cs, vs, lo, hi);
    assert es[..0] == [] && iv[..][n + 1..n + 1] == [];
    hide Slice;
    for k := lo to hi
      invariant nzrow <= n && x.Length > n && iv.Length > 2 * n
      invariant Gathered(x[..], iv[..], n, es[..k - lo], iv[..][n + 1..n + 1 + nzrow])
    {
      SliceAt(cs, vs, lo, hi, k);
      nzrow := GatherOne(x, iv, n, colidx[k], a[k], nzrow, es[..k - lo], iv[..][n + 1..n + 1 + nzrow]);
      assert es[..k - lo] + [es[k - lo]] == es[..k + 1 - lo];
    }
    assert es[..hi - lo] == es;
  }

  lemma SliceAppend(colidx: seq<int>, a: seq<real>, lo: nat, hi: nat, i: int, v: real)
    requires lo <= hi < |colidx| && hi < |a|
    ensures Slice(colidx[hi := i], a[hi := v], lo, hi + 1) == Slice(colidx, a, lo, hi) + [Entry(i, v)]
  {
  }

  lemma SliceLength(colidx: seq<int>, a: seq<real>, lo: nat, hi: nat)
    requires lo <= hi <= |colidx| && hi <= |a|
    ensures |Slice(colidx, a, lo, hi)| == hi - lo
  {
  }

  lemma SliceAt(colidx: seq<int>, a: seq<real>, lo: nat, hi: nat, k: nat)
    requires lo <= k < hi <= |colidx| && hi <= |a|
    ensures Slice(colidx, a, lo, hi)[k - lo] == Entry(colidx[k], a[k])
  {
  }

  /** The rows still to come out: nzloc[p..] keep their sums, the others are cleared; the entries written
      so far are the nonzero ones among nzloc[..p]. */
  ghost predicate Extracted(x: seq<real>, iv: seq<int>, n: nat, es: seq<Entry>, loc: seq<int>, p: nat, row: seq<Entry>)
    requires p <= |loc|
  {
    && |x| > n && |iv| > 2 * n && |row| <= p
    && (forall i {:trigger x[i]} :: 1 <= i <= n ==> x[i] == if i in loc[p..] then ColSum(es, i) else 0.0)
    && (forall i {:trigger iv[i]} :: 1 <= i <= n ==> (iv[i] != 0 ==> i in loc[p..]))
    && Distinct(loc)
    && (forall q, r {:trigger row[q], row[r]} :: 0 <= q < r < |row| ==> row[q].col != row[r].col)
    && (forall q {:trigger row[q]} :: 0 <= q < |row| ==>
         row[q].col in loc[..p] && row[q].val != 0.0 && row[q].val == ColSum(es, row[q].col))
    && (forall c {:trigger c in loc[..p]} :: c in loc[..p] && ColSum(es, c) != 0.0 ==>
         exists q :: 0 <= q < |row| && row[q].col == c)
  }

  lemma ExtractFirst(x: seq<real>, iv: seq<int>, n: nat, es: seq<Entry>, loc: seq<int>)
    requires Gathered(x, iv, n, es, loc) && |iv| > 2 * n
    ensures Extracted(x, iv, n, es, loc, 0, [])
  {
    assert loc[0..] == loc && loc[..0] == [];
  }

  lemma ExtractStep(x: seq<real>, iv: seq<int>, n: nat, es: seq<Entry>, loc: seq<int>, p: nat, row: seq<Entry>)
    requires p < |loc| && Extracted(x, iv, n, es, loc, p, row) && 1 <= loc[p] <= n
    ensures var i := loc[p];
            Extracted(x[i := 0.0], iv[i := 0], n, es, loc, p + 1, if x[i] != 0.0 then row + [Entry(i, x[i])] else row)
  {
    var i := loc[p];
    assert loc[p..] == [i] + loc[p + 1..] && loc[..p + 1] == loc[..p] + [i];
    assert i !in loc[p + 1..] && i !in loc[..p];
    var row' := if x[i] != 0.0 then row + [Entry(i, x[i])] else row;
    forall c | c in loc[..p + 1] && ColSum(es, c) != 0.0
      ensures exists q :: 0 <= q < |row'| && row'[q].col == c
    {
      if c == i {
        assert row'[|row|].col == c;
      } else {
        var q :| 0 <= q < |row| && row[q].col == c;
        assert row'[q].col == c;
      }
    }
  }

  /** The body of the second inner loop; base is the last position of the row before. */
  method ExtractOne(colidx: array<int>, a: array<real>, x: array<real>, iv: array<int>, n: nat, nza: nat, i: int,
                    ghost es: seq<Entry>, ghost loc: seq<int>, ghost p: nat, ghost row: seq<Entry>, ghost base: nat)
    returns (last: nat, ghost row': seq<Entry>)
    requires colidx != iv && a != x && base <= nza && nza + 1 < colidx.Length && nza + 1 < a.Length
    requires p < |loc| && 1 <= i <= n && i == loc[p] && Extracted(x[..], iv[..], n, es, loc, p, row)
    requires Slice(colidx[..], a[..], base + 1, nza + 1) == row
    modifies x, iv, colidx, a
    ensures Extracted(x[..], iv[..], n, es, loc, p + 1, row')
    ensures iv[..] == old(iv[..][i := 0]) && nza <= last <= nza + 1
    ensures Slice(colidx[..], a[..], base + 1, last + 1) == row'
    ensures forall k {:trigger colidx[k]} :: 0 <= k < colidx.Length && !(nza < k <= last) ==>
              colidx[k] == old(colidx[k])
    ensures forall k {:trigger a[k]} :: 0 <= k < a.Length && !(nza < k <= last) ==> a[k] == old(a[k])
  {
    ExtractStep(x[..], iv[..], n, es, loc, p, row);
    ghost var xs, ivs, c, v := x[..], iv[..], colidx[..], a[..];
    hide Extracted, Slice;
    iv[i] := 0;
    var xi := x[i];
    x[i] := 0.0;
    assert x[..] == xs[i := 0.0] && iv[..] == ivs[i := 0];
    assert colidx[..] == c && a[..] == v;
    last, row' := Emit(colidx, a, nza, i, xi, row, base);
  }

  /** A nonzero sum is appended to the row. */
  method Emit(colidx: array<int>, a: array<real>, nza: nat, i: int, xi: real, ghost row: seq<Entry>, ghost base: nat)
    returns (last: nat, ghost row': seq<Entry>)
    requires base <= nza && nza + 1 < colidx.Length && nza + 1 < a.Length
    requires Slice(colidx[..], a[..], base + 1, nza + 1) == row
    modifies colidx, a
    ensures if xi != 0.0 then last == nza + 1 && row' == row + [Entry(i, xi)] else last == nza && row' == row
    ensures Slice(colidx[..], a[..], base + 1, last + 1) == row'
    ensures forall k {:trigger colidx[k]} :: 0 <= k < colidx.Length && !(nza < k <= last) ==>
              colidx[k] == old(colidx[k])
    ensures forall k {:trigger a[k]} :: 0 <= k < a.Length && !(nza < k <= last) ==> a[k] == old(a[k])
  {
    hide Slice;
    ghost var c, v := colidx[..], a[..];
    last, row' := nza, row;
    if xi != 0.0 {
      last := last + 1;
      a[last] := xi;
      colidx[last] := i;
      row' := row + [Entry(i, xi)];
      SliceAppend(c, v, base + 1, last, i, xi);
      assert colidx[..] == c[last := i] && a[..] == v[last := xi];
    }
  }

  /** The second inner loop: the nonzero sums go to a and colidx behind position nza, and the workspaces
      are cleared again. */
  method ExtractRow(colidx: array<int>, a: array<real>, x: array<real>, iv: array<int>, n: nat, nzrow: nat, nza: nat,
                    ghost es: seq<Entry>)
    returns (last: nat)
    requires colidx != iv && a != x && nza + |es| < colidx.Length && nza + |es| < a.Length && nzrow <= n
    requires iv.Length > 2 * n
    requires Gathered(x[..], iv[..], n, es, iv[..][n + 1..n + 1 + nzrow])
    requires forall k {:trigger es[k]} :: 0 <= k < |es| ==> 1 <= es[k].col <= n
    modifies x, iv, colidx, a
    ensures nza <= last <= nza + |es| && Clear(x[..], iv[..], n)
    ensures Combined(Slice(colidx[..], a[..], nza + 1, last + 1), es)
    ensures forall k {:trigger colidx[k]} :: 0 <= k < colidx.Length && !(nza < k <= last) ==>
              colidx[k] == old(colidx[k])
    ensures forall k {:trigger a[k]} :: 0 <= k < a.Length && !(nza < k <= last) ==> a[k] == old(a[k])
  {
    ghost var xs, ivs, loc := x[..], iv[..], iv[..][n + 1..n + 1 + nzrow];
    last := nza;
    ghost var row: seq<Entry> := [];
    SliceLength(colidx[..], a[..], nza + 1, nza + 1);
    ExtractFirst(x[..], iv[..], n, es, loc);
    GatheredNonzero(x[..], iv[..], n, es, loc);
    hide Extracted, Gathered, ColSum, Combined, Clear, Slice;
    for k := 1 to nzrow + 1
      invariant nza <= last && last - nza == |row| <= k - 1
      invariant iv[..][n + 1..n + 1 + nzrow] == loc
      invariant Extracted(x[..], iv[..], n, es, loc, k - 1, row)
      invariant Slice(colidx[..], a[..], nza + 1, last + 1) == row
      invariant forall k {:trigger colidx[k]} :: 0 <= k < colidx.Length && !(nza < k <= last) ==>
                colidx[k] == old(colidx[k])
      invariant forall k {:trigger a[k]} :: 0 <= k < a.Length && !(nza < k <= last) ==> a[k] == old(a[k])
    {
      GatheredRange(xs, ivs, n, es, loc, k - 1);
      var i := iv[n + k];
      assert i == loc[k - 1];
      SliceLength(colidx[..], a[..], nza + 1, last + 1);
      last, row := ExtractOne(colidx, a, x, iv, n, last, i, es, loc, k - 1, row, nza);
      SliceLength(colidx[..], a[..], nza + 1, last + 1);
    }
    ExtractDone(x[..], iv[..], n, es, loc, row);
  }

  lemma {:induction false} OtherColumn(es: seq<Entry>, c: int)
    requires forall k {:trigger es[k]} :: 0 <= k < |es| ==> es[k].col != c
    ensures ColSum(es, c) == 0.0
  {
    if es != [] {
      OtherColumn(es[..|es| - 1], c);
    }
  }

  lemma GatheredNonzero(x: seq<real>, iv: seq<int>, n: nat, es: seq<Entry>, loc: seq<int>)
    requires Gathered(x, iv, n, es, loc) && forall k {:trigger es[k]} :: 0 <= k < |es| ==> 1 <= es[k].col <= n
    ensures forall c {:trigger ColSum(es, c)} :: ColSum(es, c) != 0.0 ==> c in loc
  {
    forall c {:trigger ColSum(es, c)} | ColSum(es, c) != 0.0
      ensures c in loc
    {
      if !(1 <= c <= n) {
        OtherColumn(es, c);
      } else {
        assert x[c] == ColSum(es, c);
      }
    }
  }

  lemma GatheredRange(x: seq<real>, iv: seq<int>, n: nat, es: seq<Entry>, loc: seq<int>, q: nat)
    requires Gathered(x, iv, n, es, loc) && q < |loc|
    ensures 1 <= loc[q] <= n && |loc| <= |es|
  {
  }

  lemma ExtractDone(x: seq<real>, iv: seq<int>, n: nat, es: seq<Entry>, loc: seq<int>, row: seq<Entry>)
    requires Extracted(x, iv, n, es, loc, |loc|, row)
    requires forall c {:trigger ColSum(es, c)} :: ColSum(es, c) != 0.0 ==> c in loc
    ensures Clear(x, iv, n) && Combined(row, es)
  {
    assert loc[|loc|..] == [] && loc[..|loc|] == loc;
  }

  // ---------- The whole routine ----------

  /** Row j of the compressed matrix. */
  ghost function CsrRow(colidx: seq<int>, a: seq<real>, rowstr: seq<int>, j: nat): seq<Entry>
    requires j + 1 < |rowstr| && 1 <= rowstr[j] <= rowstr[j + 1] <= |colidx| && rowstr[j + 1] <= |a|
  {
    Slice(colidx, a, rowstr[j], rowstr[j + 1])
  }

  /** Row j is delimited by rowstr, lies below position end, and combines the triples of its row. */
  ghost predicate RowDone(colidx: seq<int>, a: seq<real>, rowstr: seq<int>, ts: seq<Triple>, firstrow: int, j: nat,
                          end: int) {
    && 1 <= j && j + 1 < |rowstr| && 1 <= rowstr[j] <= rowstr[j + 1] <= end <= |colidx| && end <= |a|
    && Combined(CsrRow(colidx, a, rowstr, j), RowOf(ts, firstrow + j - 1))
  }

  /** The compressed matrix holds exactly the matrix of the triples: row pointers rise from 1, every row is
      combined. */
  ghost predicate Csr(colidx: seq<int>, a: seq<real>, rowstr: seq<int>, nrows: nat, ts: seq<Triple>, firstrow: int) {
    && nrows + 1 < |rowstr| && rowstr[1] == 1
    && forall j: nat {:trigger RowDone(colidx, a, rowstr, ts, firstrow, j, 1 + |ts|)} :: 1 <= j <= nrows ==>
         RowDone(colidx, a, rowstr, ts, firstrow, j, 1 + |ts|)
  }

  /** Looking up any entry of the compressed matrix gives the sum of the triples at that place. */
  lemma CsrEntry(colidx: seq<int>, a: seq<real>, rowstr: seq<int>, nrows: nat, ts: seq<Triple>, firstrow: int, j: nat,
                 c: int)
    requires Csr(colidx, a, rowstr, nrows, ts, firstrow) && 1 <= j <= nrows
    ensures 1 <= rowstr[j] <= rowstr[j + 1] <= |colidx| && rowstr[j + 1] <= |a|
    ensures ColSum(CsrRow(colidx, a, rowstr, j), c) == TripleSum(ts, firstrow + j - 1, c)
  {
    hide Combined, RowOf;
    assert RowDone(colidx, a, rowstr, ts, firstrow, j, 1 + |ts|);
    CombinedSums(CsrRow(colidx, a, rowstr, j), RowOf(ts, firstrow + j - 1), c);
    RowSums(ts, firstrow + j - 1, c);
  }

  lemma {:induction false} RowColumns(ts: seq<Triple>, r: int, n: nat)
    requires forall k {:trigger ts[k]} :: 0 <= k < |ts| ==> 1 <= ts[k].col <= n
    ensures forall k {:trigger RowOf(ts, r)[k]} :: 0 <= k < |RowOf(ts, r)| ==> 1 <= RowOf(ts, r)[k].col <= n
  {
    if ts != [] {
      RowColumns(ts[..|ts| - 1], r, n);
    }
  }

  /** How far the compaction has come before row j: rows below j are final, the others still sorted. */
  ghost predicate Compacted(colidx: seq<int>, a: seq<real>, rowstr: seq<int>, nrows: nat, ts: seq<Triple>,
                            firstrow: int, j: nat, nza: nat)
    requires 1 <= j <= nrows + 1
  {
    && nrows + 1 < |rowstr| && |ts| < |colidx| && |ts| < |a| && rowstr[1] == 1
    && rowstr[j] == nza + 1 <= Start(ts, firstrow, j) <= 1 + |ts|
    && (forall i: nat {:trigger rowstr[i]} :: j < i <= nrows + 1 ==> rowstr[i] == Start(ts, firstrow, i))
    && (forall i: nat {:trigger RowDone(colidx, a, rowstr, ts, firstrow, i, nza + 1)} :: 1 <= i < j ==>
          RowDone(colidx, a, rowstr, ts, firstrow, i, nza + 1))
    && (forall i: nat {:trigger Sorted(colidx, a, ts, firstrow, i)} :: j <= i <= nrows ==>
         Sorted(colidx, a, ts, firstrow, i))
  }

  /** Finishing row j: only positions below the start of row j+1 have been overwritten, so the rows after
      it can still be read. */
  lemma CompactStep(colidx: seq<int>, a: seq<real>, rowstr: seq<int>, nrows: nat, ts: seq<Triple>, firstrow: int,
                    j: nat, nza: nat, colidx': seq<int>, a': seq<real>, last: nat)
    requires 1 <= j <= nrows && Compacted(colidx, a, rowstr, nrows, ts, firstrow, j, nza)
    requires |colidx'| == |colidx| && |a'| == |a| && nza <= last <= nza + |RowOf(ts, firstrow + j - 1)|
    requires forall k {:trigger colidx'[k]} :: 0 <= k < |colidx| && !(nza < k <= last) ==> colidx'[k] == colidx[k]
    requires forall k {:trigger a'[k]} :: 0 <= k < |a| && !(nza < k <= last) ==> a'[k] == a[k]
    requires last < |colidx| && last < |a|
    requires Combined(Slice(colidx', a', nza + 1, last + 1), RowOf(ts, firstrow + j - 1))
    ensures Compacted(colidx', a', rowstr[j + 1 := last + 1], nrows, ts, firstrow, j + 1, last)
  {
    hide RowOf, Combined;
    var rowstr' := rowstr[j + 1 := last + 1];
    assert Sorted(colidx, a, ts, firstrow, j);
    StartMonotone(ts, firstrow, j, j + 1);
    forall i: nat {:trigger Sorted(colidx', a', ts, firstrow, i)} | j + 1 <= i <= nrows
      ensures Sorted(colidx', a', ts, firstrow, i)
    {
      assert Sorted(colidx, a, ts, firstrow, i);
      StartMonotone(ts, firstrow, j + 1, i);
      assert Slice(colidx', a', Start(ts, firstrow, i), Start(ts, firstrow, i + 1))
          == Slice(colidx, a, Start(ts, firstrow, i), Start(ts, firstrow, i + 1));
    }
    forall i: nat {:trigger RowDone(colidx', a', rowstr', ts, firstrow, i, last + 1)} | 1 <= i < j + 1
      ensures RowDone(colidx', a', rowstr', ts, firstrow, i, last + 1)
    {
      if i < j {
        assert RowDone(colidx, a, rowstr, ts, firstrow, i, nza + 1);
        assert CsrRow(colidx', a', rowstr', i) == CsrRow(colidx, a, rowstr, i);
      }
    }
  }

  /** sparse: the compressed rows hold the sum of the triples at every place, each column at most once, no
      stored zero; x and mark are clear again afterwards. */
  method SparseMatrix(a: array<real>, colidx: array<int>, rowstr: array<int>, n: nat, arow: array<int>,
                      acol: array<int>, aelt: array<real>, firstrow: int, lastrow: int, x: array<real>,
                      iv: array<int>, nnza: nat, ghost ts: seq<Triple>)
    requires firstrow <= lastrow + 1 && lastrow - firstrow + 1 <= n
    requires Input(arow, acol, aelt, ts, firstrow, lastrow, n) && |ts| == nnza
    requires nnza < a.Length && nnza < colidx.Length && n + 1 < rowstr.Length && n < x.Length && 2 * n < iv.Length
    requires colidx != rowstr && colidx != iv && rowstr != iv && arow != colidx && arow != rowstr && arow != iv
    requires acol != colidx && acol != rowstr && acol != iv && a != x && aelt != a && aelt != x
    modifies a, colidx, rowstr, x, iv
    ensures Csr(colidx[..], a[..], rowstr[..], lastrow - firstrow + 1, ts, firstrow)
    ensures Clear(x[..], iv[..], n)
  {
    var nrows := lastrow - firstrow + 1;
    for j := 1 to n + 1
      invariant forall i {:trigger rowstr[i]} :: 1 <= i < j ==> rowstr[i] == 0
    {
      rowstr[j] := 0;
      iv[j] := 0;
    }
    rowstr[n + 1] := 0;
    CountRows(rowstr, nrows, firstrow, arow, nnza, ts);
    RowStarts(rowstr, nrows, firstrow, ts);
    BucketSort(colidx, a, rowstr, n, nrows, firstrow, arow, acol, aelt, nnza, ts);
    ghost var c, v := colidx[..], a[..];
    for i := 1 to n + 1
      invariant forall k {:trigger x[k]} {:trigger iv[k]} :: 1 <= k < i ==> x[k] == 0.0 && iv[k] == 0
      invariant colidx[..] == c && a[..] == v
      invariant forall j: nat {:trigger rowstr[j]} :: 1 <= j <= nrows + 1 ==> rowstr[j] == Start(ts, firstrow, j)
    {
      x[i] := 0.0;
      iv[i] := 0;
    }
    CompactRows(a, colidx, rowstr, n, nrows, firstrow, x, iv, ts);
  }

  /** The final loop over the rows: gather, extract behind position nza, and rewrite the row pointer. */
  method CompactRows(a: array<real>, colidx: array<int>, rowstr: array<int>, n: nat, nrows: nat, firstrow: int,
                     x: array<real>, iv: array<int>, ghost ts: seq<Triple>)
    requires nrows + 1 < rowstr.Length && |ts| < a.Length && |ts| < colidx.Length
    requires colidx != rowstr && colidx != iv && rowstr != iv && a != x && Clear(x[..], iv[..], n)
    requires forall k {:trigger ts[k]} :: 0 <= k < |ts| ==> firstrow <= ts[k].row && 1 <= ts[k].col <= n
    requires forall j: nat {:trigger rowstr[j]} :: 1 <= j <= nrows + 1 ==> rowstr[j] == Start(ts, firstrow, j)
    requires forall j: nat {:trigger Sorted(colidx[..], a[..], ts, firstrow, j)} :: 1 <= j <= nrows ==>
               Sorted(colidx[..], a[..], ts, firstrow, j)
    modifies a, colidx, rowstr, x, iv
    ensures Csr(colidx[..], a[..], rowstr[..], nrows, ts, firstrow)
    ensures Clear(x[..], iv[..], n)
  {
    hide RowOf, Combined, Csr;
    StartEmptyPrefix(ts, firstrow);
    hide Start, Slice;
    var nza := 0;
    var jajp1 := rowstr[1];
    for j := 1 to nrows + 1
      invariant nza >= 0 && jajp1 == Start(ts, firstrow, j)
      invariant Compacted(colidx[..], a[..], rowstr[..], nrows, ts, firstrow, j, nza)
      invariant Clear(x[..], iv[..], n)
    {
      hide Clear, Compacted;
      CompactedRow(colidx[..], a[..], rowstr[..], nrows, ts, firstrow, j, nza, n);
      ghost var es := RowOf(ts, firstrow + j - 1);
      ghost var c, v, r := colidx[..], a[..], rowstr[..];
      var nzrow := GatherRow(colidx, a, x, iv, n, jajp1, rowstr[j + 1]);
      assert colidx[..] == c && a[..] == v;
      var last := ExtractRow(colidx, a, x, iv, n, nzrow, nza, es);
      CompactStep(c, v, r, nrows, ts, firstrow, j, nza, colidx[..], a[..], last);
      nza := last;
      jajp1 := rowstr[j + 1];
      rowstr[j + 1] := nza + rowstr[1];
      assert rowstr[..] == r[j + 1 := last + 1];
    }
    CompactedDone(colidx[..], a[..], rowstr[..], nrows, ts, firstrow, nza);
  }

  lemma CompactedDone(colidx: seq<int>, a: seq<real>, rowstr: seq<int>, nrows: nat, ts: seq<Triple>, firstrow: int,
                      nza: nat)
    requires Compacted(colidx, a, rowstr, nrows, ts, firstrow, nrows + 1, nza)
    ensures Csr(colidx, a, rowstr, nrows, ts, firstrow)
  {
    hide RowOf, Slice, Combined, Start;
    forall j: nat {:trigger RowDone(colidx, a, rowstr, ts, firstrow, j, 1 + |ts|)} | 1 <= j <= nrows
      ensures RowDone(colidx, a, rowstr, ts, firstrow, j, 1 + |ts|)
    {
      assert RowDone(colidx, a, rowstr, ts, firstrow, j, nza + 1);
    }
  }

  /** What the loop body may use about row j. */
  lemma CompactedRow(colidx: seq<int>, a: seq<real>, rowstr: seq<int>, nrows: nat, ts: seq<Triple>, firstrow: int,
                     j: nat, nza: nat, n: nat)
    requires 1 <= j <= nrows && Compacted(colidx, a, rowstr, nrows, ts, firstrow, j, nza)
    requires forall k {:trigger ts[k]} :: 0 <= k < |ts| ==> 1 <= ts[k].col <= n
    ensures nrows + 1 < |rowstr| && rowstr[1] == 1 && rowstr[j + 1] == Start(ts, firstrow, j + 1)
    ensures Start(ts, firstrow, j) <= Start(ts, firstrow, j + 1) <= |colidx| && Start(ts, firstrow, j + 1) <= |a|
    ensures Slice(colidx, a, Start(ts, firstrow, j), Start(ts, firstrow, j + 1)) == RowOf(ts, firstrow + j - 1)
    ensures nza + |RowOf(ts, firstrow + j - 1)| < |colidx| && nza + |RowOf(ts, firstrow + j - 1)| < |a|
    ensures forall k {:trigger RowOf(ts, firstrow + j - 1)[k]} :: 0 <= k < |RowOf(ts, firstrow + j - 1)| ==>
              1 <= RowOf(ts, firstrow + j - 1)[k].col <= n
    ensures forall k {:trigger colidx[k]} :: Start(ts, firstrow, j) <= k < Start(ts, firstrow, j + 1) ==>
              1 <= colidx[k] <= n
  {
    hide RowOf, Start, Slice, Combined;
    assert Sorted(colidx, a, ts, firstrow, j);
    RowColumns(ts, firstrow + j - 1, n);
    var lo, hi := Start(ts, firstrow, j), Start(ts, firstrow, j + 1);
    forall k {:trigger colidx[k]} | lo <= k < hi
      ensures 1 <= colidx[k] <= n
    {
      SliceAt(colidx, a, lo, hi, k);
    }
  }
}
