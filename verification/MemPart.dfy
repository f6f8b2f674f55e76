/** mpart.c: RAM regions, and two passes over them. One carves NUMA nodes from the top of memory down; the other
    cuts it into equal partitions, one for each CPU, from address 0 up. Both skip the holes between regions. */
module MemPart {

  /** Addresses from start up to but not including end. The entry (0, 0) ends the list. */
  datatype Region = Region(start: int, end: int)

  // ---------- Bytes of RAM ----------

  function Min(a: int, b: int): int { if a < b then a else b }
  function Max(a: int, b: int): int { if a < b then b else a }

  /** The bytes of [lo, hi) in one region; a region whose end lies below its start has none. */
  function Overlap(r: Region, lo: int, hi: int): int {
    Max(0, Min(hi, r.end) - Max(lo, r.start))
  }

  /** The bytes of [lo, hi) in RAM. */
  function Ram(m: seq<Region>, lo: int, hi: int): int {
    if m == [] then 0 else Ram(m[..|m| - 1], lo, hi) + Overlap(m[|m| - 1], lo, hi)
  }

  /** The signed lengths of the first k regions, added up. */
  function Prefix(m: seq<Region>, k: nat): int
    requires k <= |m|
  {
    if k == 0 then 0 else Prefix(m, k - 1) + m[k - 1].end - m[k - 1].start
  }

  /** How far the ends of regions a to b - 1 lie below their starts, in all. */
  function Inverted(m: seq<Region>, a: nat, b: nat): int
    requires b <= |m|
    decreases b
  {
    if b <= a then 0 else Inverted(m, a, b - 1) + Max(0, m[b - 1].start - m[b - 1].end)
  }

  ghost predicate Ordered(m: seq<Region>) {
    forall j, k :: 0 <= j < k < |m| ==> m[j].start <= m[k].start && m[j].end <= m[k].start
  }

  predicate Inside(m: seq<Region>, k: nat, a: int) {
    k < |m| && m[k].start <= a <= m[k].end
  }

  /** The RAM between two addresses inside regions, from the lengths of the regions between them. */
  lemma {:induction false} RamBetween(m: seq<Region>, lo: int, hi: int, j: nat, k: nat)
    requires Ordered(m) && Inside(m, j, lo) && Inside(m, k, hi) && lo <= hi && j <= k
    ensures Ram(m, lo, hi) == Prefix(m, k) + hi - m[k].start - (Prefix(m, j) + lo - m[j].start) + Inverted(m, j, k)
  {
    RamOfFirst(m, lo, hi, j, k, |m|);
    assert m[..|m|] == m;
  }

  /** The RAM between the two addresses that lies in the first n regions. */
  function Expected(m: seq<Region>, lo: int, hi: int, j: nat, k: nat, n: nat): int
    requires j <= k < |m| && n <= |m|
  {
    if n <= j then 0
    else if n <= k then Prefix(m, n) - (Prefix(m, j) + lo - m[j].start) + Inverted(m, j, n)
    else Prefix(m, k) + hi - m[k].start - (Prefix(m, j) + lo - m[j].start) + Inverted(m, j, k)
  }

  lemma {:induction false} RamOfFirst(m: seq<Region>, lo: int, hi: int, j: nat, k: nat, n: nat)
    requires Ordered(m) && Inside(m, j, lo) && Inside(m, k, hi) && lo <= hi && j <= k && n <= |m|
    ensures Ram(m[..n], lo, hi) == Expected(m, lo, hi, j, k, n)
  {
    if n > 0 {
      RamOfFirst(m, lo, hi, j, k, n - 1);
      assert m[..n][..n - 1] == m[..n - 1];
      OneRegion(m, lo, hi, j, k, n - 1);
    }
  }

  lemma OneRegion(m: seq<Region>, lo: int, hi: int, j: nat, k: nat, i: nat)
    requires Ordered(m) && Inside(m, j, lo) && Inside(m, k, hi) && lo <= hi && j <= k && i < |m|
    ensures Overlap(m[i], lo, hi) == if i < j || k < i then 0 else if j == k then hi - lo
                                     else if i == j then m[j].end - lo else if i == k then hi - m[k].start
                                     else Max(0, m[i].end - m[i].start)
  {
    assert i < j ==> m[i].end <= m[j].start;
    assert j < i ==> m[j].end <= m[i].start;
    assert i < k ==> m[i].end <= m[k].start;
    assert k < i ==> m[k].end <= m[i].start;
  }

  // ---------- NUMA nodes, from the top down ----------

  /** A value of the C type unsigned long long. */
  function Wrap(x: int): (r: nat)
    ensures r < 0x1_0000_0000_0000_0000
  {
    x % 0x1_0000_0000_0000_0000
  }

  lemma WrapSmall(x: int)
    requires 0 <= x < 0x1_0000_0000_0000_0000
    ensures Wrap(x) == x
  {
  }

  lemma WrapNegative(x: int)
    requires -0x8000_0000_0000_0000 <= x < 0
    ensures Wrap(x) == x + 0x1_0000_0000_0000_0000
  {
  }

  /** A node's addresses, its size, and the indices of the regions that hold its first and last addresses. */
  datatype Node = Node(start: int, end: int, size: int, rstart: int, rend: int)

  ghost predicate Addresses(m: seq<Region>) {
    Ordered(m) && forall k :: 0 <= k < |m| ==> 0 <= m[k].start <= m[k].end < 0x8000_0000_0000_0000
  }

  /** The number of entries before the one that ends the list. */
  function Count(m: seq<Region>): (n: nat)
    ensures n <= |m|
  {
    if m == [] || m[0] == Region(0, 0) then 0 else 1 + Count(m[1..])
  }

  lemma {:induction false} CountIs(m: seq<Region>, n: nat)
    requires n <= |m| && (forall k :: 0 <= k < n ==> m[k] != Region(0, 0)) && (n == |m| || m[n] == Region(0, 0))
    ensures Count(m) == n
  {
    if n > 0 {
      CountIs(m[1..], n - 1);
    }
  }

  /** The RAM that nodes i and up ask for. A size of -1, which stands for a node without one, asks for too much. */
  function Wanted(sizes: seq<int>, i: nat): nat
    requires i <= |sizes|
    decreases |sizes| - i
  {
    if i == |sizes| then 0 else Wrap(sizes[i]) + Wanted(sizes, i + 1)
  }

  /** Some node has no size; the sum of all sizes. */
  predicate Missing(sizes: seq<int>) { exists i :: 0 <= i < |sizes| && sizes[i] < 0 }

  function SumOf(sizes: seq<int>): int {
    if sizes == [] then 0 else SumOf(sizes[..|sizes| - 1]) + sizes[|sizes| - 1]
  }

  lemma {:induction false} SumFrom(sizes: seq<int>, i: nat)
    requires i <= |sizes| && forall j :: 0 <= j < |sizes| ==> 0 <= sizes[j] < 0x8000_0000_0000_0000
    ensures SumOf(sizes) == SumOf(sizes[..i]) + Wanted(sizes, i)
    decreases |sizes| - i
  {
    if i == |sizes| {
      assert sizes[..i] == sizes;
    } else {
      SumFrom(sizes, i + 1);
      assert sizes[..i + 1][..i] == sizes[..i];
      WrapSmall(sizes[i]);
    }
  }

  lemma {:induction false} MissingTooMuch(sizes: seq<int>, i: nat, j: nat)
    requires i <= j < |sizes| && -0x8000_0000_0000_0000 <= sizes[j] < 0
    ensures Wanted(sizes, i) >= 0x8000_0000_0000_0000
    decreases |sizes| - i
  {
    hide Wrap;
    WrapNegative(sizes[j]);
    if i < j {
      MissingTooMuch(sizes, i + 1, j);
    }
  }

  /** What the nodes ask for is more than there is, if and only if some node has no size or their sum is. */
  lemma WantedIs(sizes: seq<int>, ram: int)
    requires forall i :: 0 <= i < |sizes| ==> -0x8000_0000_0000_0000 <= sizes[i] < 0x8000_0000_0000_0000
    requires ram < 0x8000_0000_0000_0000
    ensures Wanted(sizes, 0) > ram <==> Missing(sizes) || SumOf(sizes) > ram
  {
    hide Wanted, SumOf;
    if Missing(sizes) {
      var j: nat :| j < |sizes| && sizes[j] < 0;
      MissingTooMuch(sizes, 0, j);
    } else {
      SumFrom(sizes, 0);
      NoSum(sizes);
    }
  }

  lemma NoSum(sizes: seq<int>)
    ensures SumOf(sizes[..0]) == 0
  {
  }

  /** Node i was carved as it should be: its addresses hold as much RAM as it asked for and end where the next
      node's start; rstart is the region that holds its first address. */
  ghost predicate Carved(m: seq<Region>, sizes: seq<int>, nodes: seq<Node>, i: nat)
    requires i < |sizes| == |nodes| && |m| > 0
  {
    && nodes[i].size == sizes[i]
    && nodes[i].start <= nodes[i].end == (if i + 1 == |nodes| then m[|m| - 1].end else nodes[i + 1].start)
    && Ram(m, nodes[i].start, nodes[i].end) == sizes[i]
    && 0 <= nodes[i].rstart <= nodes[i].rend < |m|
    && nodes[i].rend == (if i + 1 == |nodes| then |m| - 1 else nodes[i + 1].rstart)
    && Inside(m, nodes[i].rstart, nodes[i].start) && (sizes[i] > 0 ==> nodes[i].start < m[nodes[i].rstart].end)
    && Inside(m, nodes[i].rend, nodes[i].end)
  }

  lemma {:induction false} Upright(m: seq<Region>, j: nat, k: nat)
    requires k <= |m|
    ensures Inverted(m, j, k) >= 0
    ensures Inverted(m, j, k) == 0 <==> forall i :: j <= i < k ==> m[i].start <= m[i].end
    decreases k
  {
    if k > j {
      Upright(m, j, k - 1);
    }
  }

  /** The RAM below an address inside region k. */
  function Below(m: seq<Region>, k: nat, a: int): int
    requires k < |m|
  {
    Prefix(m, k) + a - m[k].start
  }

  /** Finds the region that a node starts in. While the RAM of the region at hand, below last, is less than what is
      left to find, takes that RAM and goes on to the next region down. When there is none, it stops. What it does
      when last is not inside the region at hand is left open: that happens only after it once stopped. */
  method FindStart(amemres: array<Region>, ghost m: seq<Region>, last0: nat, im0: nat, size0: nat)
    returns (nlast: nat, im: nat, more: bool)
    requires Addresses(m) && |m| <= amemres.Length && m == amemres[..|m|] && im0 < |m|
    requires last0 < 0x1_0000_0000_0000_0000 && size0 < 0x1_0000_0000_0000_0000
    ensures im <= im0 && nlast < 0x1_0000_0000_0000_0000
    ensures Inside(m, im0, last0) ==> (more <==> size0 <= Below(m, im0, last0))
    ensures Inside(m, im0, last0) && more ==> Inside(m, im, nlast) && nlast <= last0
    ensures Inside(m, im0, last0) && more ==> Below(m, im, nlast) == Below(m, im0, last0) - size0
    ensures Inside(m, im0, last0) && more && size0 > 0 ==> nlast < m[im].end
  {
    hide Prefix, Wrap;
    var size: nat, last: nat := size0, last0;
    im := im0;
    more := true;
    ghost var inside := Inside(m, im0, last0);
    while Wrap(last - amemres[im].start) < size
      invariant im <= im0 && more && last < 0x1_0000_0000_0000_0000 && size < 0x1_0000_0000_0000_0000
      invariant inside ==> Inside(m, im, last) && size <= size0 && last <= last0 && (size0 > 0 ==> size > 0)
      invariant inside ==> Below(m, im, last) - size == Below(m, im0, last0) - size0
      decreases im
    {
      Within(m, im, last);
      if !(im > 0) {
        more := false;
        break;
      }
      var avail := Wrap(last - amemres[im].start);
      im := im - 1;
      if inside {
        WrapSmall(size - avail);
      }
      size := Wrap(size - avail);
      last := amemres[im].end;
    }
    Within(m, im, last);
    assert amemres[im] == m[im];
    if inside && more {
      assert Inside(m, im, last);
      assert Wrap(last - m[im].start) == last - m[im].start;
      assert !(Wrap(last - amemres[im].start) < size);
      assert size <= last - m[im].start;
      WrapSmall(last - size);
    }
    nlast := Wrap(last - size);
  }

  lemma Within(m: seq<Region>, k: nat, a: int)
    requires Addresses(m) && k < |m|
    ensures Inside(m, k, a) ==> Wrap(a - m[k].start) == a - m[k].start && Below(m, k, a) >= a - m[k].start
    ensures k > 0 ==> Below(m, k, m[k].start) == Below(m, k - 1, m[k - 1].end) && m[k - 1].end <= m[k].start
    ensures k == 0 ==> Below(m, k, a) == a - m[k].start
  {
    BelowNonNegative(m, k);
  }

  method CountRegions(amemres: array<Region>) returns (k: nat)
    ensures k == Count(amemres[..])
  {
    k := 0;
    while k < amemres.Length
      invariant k <= amemres.Length && forall j :: 0 <= j < k ==> amemres[j] != Region(0, 0)
    {
      if amemres[k] == Region(0, 0) {
        break;
      }
      k := k + 1;
    }
    CountIs(amemres[..], k);
  }

  /** Carves the nodes from the highest down. The message that there is no more memory is printed exactly when the
      nodes want more than there is; when it is not, every node is carved as it should be. */
  method CarveNodes(amemres: array<Region>, sizes: seq<int>) returns (anode: array<Node>, message: bool)
    requires Count(amemres[..]) > 0 && Addresses(amemres[..][..Count(amemres[..])])
    requires forall i :: 0 <= i < |sizes| ==> -0x8000_0000_0000_0000 <= sizes[i] < 0x8000_0000_0000_0000
    ensures fresh(anode) && anode.Length == |sizes|
    ensures var m := amemres[..][..Count(amemres[..])];
            && (message <==> Wanted(sizes, 0) > Ram(m, m[0].start, m[|m| - 1].end))
            && (message <==> Missing(sizes) || SumOf(sizes) > Ram(m, m[0].start, m[|m| - 1].end))
            && (!message ==> forall i :: 0 <= i < |sizes| ==> Carved(m, sizes, anode[..], i))
  {
    var k := CountRegions(amemres);
    var im := k - 1;
    ghost var m := amemres[..][..k];
    assert m == amemres[..k];
    AllRam(m);
    var last: nat := amemres[im].end;
    anode := new Node[|sizes|](_ => Node(0, 0, 0, 0, 0));
    message := false;
    var i := |sizes|;
    assert Inside(m, im, last) && Below(m, im, last) == Prefix(m, |m|) && Wanted(sizes, i) == 0;
    hide Wrap, Ram, Prefix, Wanted, Inside, Below, Carved;
    while i > 0
      invariant 0 <= i <= |sizes| && 0 <= im < |m| && last < 0x1_0000_0000_0000_0000
      invariant fresh(anode) && anode.Length == |sizes| && amemres[..k] == m
      invariant !message ==> Inside(m, im, last) && Below(m, im, last) == Prefix(m, |m|) - Wanted(sizes, i)
      invariant message ==> Wanted(sizes, i) > Prefix(m, |m|)
      invariant !message ==> Joins(m, anode[..], i, last, im)
      invariant !message ==> forall j :: i <= j < |sizes| ==> Carved(m, sizes, anode[..], j)
    {
      i := i - 1;
      var nlast, start, more := FindStart(amemres, m, last, im, Wrap(sizes[i]));
      ghost var before := anode[..];
      anode[i] := Node(nlast, last, sizes[i], start, im);
      assert anode[..] == before[i := anode[i]];
      if !message && more {
        CarvedOne(m, sizes, before, anode[..], i, anode[i]);
      }
      message := message || !more;
      WantedUp(sizes, i);
      last, im := nlast, start;
    }
    BelowInside(m, im, last);
    RamBound(m);
    WantedIs(sizes, Prefix(m, |m|));
  }

  lemma RamBound(m: seq<Region>)
    requires Addresses(m) && |m| > 0
    ensures Prefix(m, |m|) < 0x8000_0000_0000_0000
  {
    PrefixAtMost(m, |m| - 1);
  }

  lemma BelowInside(m: seq<Region>, k: nat, a: int)
    requires Addresses(m) && k < |m|
    ensures Inside(m, k, a) ==> Below(m, k, a) >= 0
  {
    BelowNonNegative(m, k);
  }

  /** Where node i - 1 has to end. */
  ghost predicate Joins(m: seq<Region>, nodes: seq<Node>, i: nat, last: int, im: int)
    requires |m| > 0
  {
    && i <= |nodes|
    && if i == |nodes| then last == m[|m| - 1].end && im == |m| - 1 else last == nodes[i].start && im == nodes[i].rstart
  }

  lemma AllRam(m: seq<Region>)
    requires Addresses(m) && |m| > 0
    ensures Ram(m, m[0].start, m[|m| - 1].end) == Prefix(m, |m|)
  {
    assert m[0].start <= m[|m| - 1].end;
    RamBetween(m, m[0].start, m[|m| - 1].end, 0, |m| - 1);
    Upright(m, 0, |m| - 1);
  }

  lemma {:induction false} BelowNonNegative(m: seq<Region>, k: nat)
    requires Addresses(m) && k <= |m|
    ensures Prefix(m, k) >= 0
  {
    if k > 0 {
      BelowNonNegative(m, k - 1);
    }
  }

  lemma {:induction false} PrefixAtMost(m: seq<Region>, k: nat)
    requires Addresses(m) && k < |m|
    ensures Prefix(m, k) <= m[k].start
  {
    if k > 0 {
      PrefixAtMost(m, k - 1);
      assert m[k - 1].end <= m[k].start;
    }
  }

  lemma WantedUp(sizes: seq<int>, i: nat)
    requires i < |sizes|
    ensures Wanted(sizes, i) == Wrap(sizes[i]) + Wanted(sizes, i + 1) >= Wanted(sizes, i + 1)
  {
  }

  lemma CarvedOne(m: seq<Region>, sizes: seq<int>, nodes: seq<Node>, nodes': seq<Node>, i: nat, d: Node)
    requires Addresses(m) && |m| > 0 && i < |sizes| == |nodes| && Joins(m, nodes, i + 1, d.end, d.rend)
    requires nodes' == nodes[i := d]
    requires 0 <= d.rstart <= d.rend && Inside(m, d.rend, d.end) && Inside(m, d.rstart, d.start) && d.start <= d.end
    requires Below(m, d.rstart, d.start) == Below(m, d.rend, d.end) - Wrap(sizes[i]) && d.size == sizes[i]
    requires -0x8000_0000_0000_0000 <= sizes[i] < 0x8000_0000_0000_0000
    requires Wrap(sizes[i]) > 0 ==> d.start < m[d.rstart].end
    requires forall j :: i + 1 <= j < |sizes| ==> Carved(m, sizes, nodes, j)
    ensures forall j :: i <= j < |sizes| ==> Carved(m, sizes, nodes', j)
    ensures Joins(m, nodes', i, d.start, d.rstart)
  {
    RamBetween(m, d.start, d.end, d.rstart, d.rend);
    Upright(m, d.rstart, d.rend);
    PrefixAtMost(m, d.rend);
    BelowNonNegative(m, d.rstart);
    if sizes[i] < 0 {
      WrapNegative(sizes[i]);
    } else {
      WrapSmall(sizes[i]);
    }
    assert Wrap(sizes[i]) == sizes[i];
    assert Carved(m, sizes, nodes', i);
    forall j | i + 1 <= j < |sizes| ensures Carved(m, sizes, nodes', j) {
      assert Carved(m, sizes, nodes, j);
    }
  }
}
