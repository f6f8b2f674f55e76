/** mpart.c: the policy that cuts memory into one partition for each CPU without regard to NUMA nodes. It skips the
    regions below a reserved first 16 MB, computes the size of a partition, aligns the ends of the regions to 128 MB
    inwards, and cuts partitions from address 0 up. */
module CpuPart {
  import opened MemPart

  /** The first region that reaches the end of the reserved addresses. */
  function CapRegion(m: seq<Region>): (s: nat)
    ensures s <= |m|
  {
    if m == [] || m[0].end >= 0x100_0000 then 0 else 1 + CapRegion(m[1..])
  }

  lemma {:induction false} CapRegionIs(m: seq<Region>, s: nat)
    requires s < |m| && m[s].end >= 0x100_0000 && forall k :: 0 <= k < s ==> m[k].end < 0x100_0000
    ensures CapRegion(m) == s
  {
    if s > 0 {
      CapRegionIs(m[1..], s - 1);
    }
  }

  lemma {:induction false} CapRegionReaches(m: seq<Region>)
    ensures CapRegion(m) < |m| ==> m[CapRegion(m)].end >= 0x100_0000
  {
    if m != [] && m[0].end < 0x100_0000 {
      CapRegionReaches(m[1..]);
    }
  }

  method SkipCap(amemres: array<Region>, ghost m: seq<Region>) returns (s: nat)
    requires Addresses(m) && |m| <= amemres.Length && m == amemres[..|m|]
    requires CapRegion(m) < |m|
    ensures s == CapRegion(m)
  {
    ghost var k := CapRegion(m);
    CapRegionReaches(m);
    s := 0;
    while amemres[s].start < 0x100_0000
      invariant s <= k && forall j :: 0 <= j < s ==> m[j].end < 0x100_0000
      decreases k - s
    {
      assert amemres[s] == m[s];
      if amemres[s].end < 0x100_0000 {
        s := s + 1;
        continue;
      }
      break;
    }
    assert amemres[s] == m[s];
    CapRegionIs(m, s);
  }

  /** The bytes below region s that lie in no region. */
  method HolesBelow(amemres: array<Region>, ghost m: seq<Region>, s: nat) returns (holes: int)
    requires Addresses(m) && |m| <= amemres.Length && m == amemres[..|m|] && s < |m|
    ensures holes == m[s].start - Ram(m, 0, m[s].start)
  {
    var p, end := 0, 0;
    holes := 0;
    while p != s
      invariant p <= s && holes == end - Prefix(m, p) && end == if p == 0 then 0 else m[p - 1].end
    {
      assert amemres[p] == m[p];
      holes := holes + (amemres[p].start - end);
      end := amemres[p].end;
      p := p + 1;
    }
    assert amemres[s] == m[s];
    holes := holes + (amemres[p].start - end);
    RamFromZero(m, s, m[s].start);
  }

  /** The RAM below an address, counted from 0. */
  lemma RamFromZero(m: seq<Region>, k: nat, a: int)
    requires Addresses(m) && Inside(m, k, a)
    ensures Ram(m, 0, a) == Below(m, k, a)
  {
    var m0 := [Region(0, 0)] + m;
    assert Ordered(m0) && Inside(m0, 0, 0) && Inside(m0, k + 1, a) && 0 <= a;
    hide Ordered, Addresses;
    RamBetween(m0, 0, a, 0, k + 1);
    PrefixShift(Region(0, 0), m, k);
    RamShift(Region(0, 0), m, 0, a);
    NoneInverted(m, k + 1);
  }

  lemma NoneInverted(m: seq<Region>, k: nat)
    requires Addresses(m) && k <= |m|
    ensures Inverted([Region(0, 0)] + m, 0, k) == 0
  {
    var m0 := [Region(0, 0)] + m;
    forall i | 0 <= i < k
      ensures m0[i].start <= m0[i].end
    {
    }
    Upright(m0, 0, k);
  }

  lemma {:induction false} PrefixShift(r: Region, m: seq<Region>, k: nat)
    requires k <= |m|
    ensures Prefix([r] + m, k + 1) == r.end - r.start + Prefix(m, k)
  {
    if k > 0 {
      PrefixShift(r, m, k - 1);
    }
  }

  lemma {:induction false} RamShift(r: Region, m: seq<Region>, lo: int, hi: int)
    ensures Ram([r] + m, lo, hi) == Overlap(r, lo, hi) + Ram(m, lo, hi)
  {
    if m == [] {
      assert [r] + m == [r] && [r][..0] == [];
    } else {
      RamShift(r, m[..|m| - 1], lo, hi);
      assert ([r] + m)[..|m|] == [r] + m[..|m| - 1];
    }
  }

  /** The size of a partition. */
  function PartSize(size: nat, cpuNum: nat): nat
    requires cpuNum > 0
  {
    size / 0x800_0000 / cpuNum * 0x800_0000
  }

  /** The size of a partition is the largest multiple of 128 MB of which all CPUs together can get one each. */
  method ChunkSize(size: nat, cpuNum: nat) returns (alignedchunk: nat)
    requires cpuNum > 0
    ensures alignedchunk == PartSize(size, cpuNum) && alignedchunk % 0x800_0000 == 0
    ensures cpuNum * alignedchunk <= size < cpuNum * (alignedchunk + 0x800_0000)
  {
    var chunkyNum := size / 0x800_0000;
    var chunkyPerCpu := chunkyNum / cpuNum;
    var chunk := chunkyPerCpu * 0x800_0000;
    Divided(chunkyNum, cpuNum);
    alignedchunk := chunk - chunk % 0x20_0000;
    assert chunk % 0x20_0000 == 0;
    calc {
      cpuNum * alignedchunk;
      cpuNum * (chunkyPerCpu * 0x800_0000);
      (cpuNum * chunkyPerCpu) * 0x800_0000;
    }
    calc {
      cpuNum * (alignedchunk + 0x800_0000);
      cpuNum * ((chunkyPerCpu + 1) * 0x800_0000);
      (cpuNum * (chunkyPerCpu + 1)) * 0x800_0000;
    }
  }

  lemma Divided(n: nat, d: nat)
    requires d > 0
    ensures d * (n / d) <= n < d * (n / d + 1)
  {
    assert n == d * (n / d) + n % d;
  }

  // ---------- Realigning ----------

  function Floor(x: int): int { x - x % 0x800_0000 }
  function Ceil(x: int): int { if x % 0x800_0000 == 0 then x else Floor(x) + 0x800_0000 }

  /** Rounds the start of a region up, unless it lies in or at the end of the reserved addresses, and its end
      down. */
  function Align(r: Region): Region {
    Region(if r.start > 0x100_0000 then Ceil(r.start) else r.start, Floor(r.end))
  }

  /** The map of n regions after realigning from region s: nothing changes when that region starts at 0, since the
      loop takes it for the end of the list. */
  function Realigned(m: seq<Region>, s: nat, n: nat): (r: seq<Region>)
    requires s < n <= |m|
    ensures |r| == |m|
  {
    seq(|m|, k requires 0 <= k < |m| => if m[s].start != 0 && s <= k < n then Align(m[k]) else m[k])
  }

  /** The region has been rounded inwards: the end down to the next multiple of 128 MB, and the start up to it, unless
      that lies in or at the end of the reserved addresses. */
  predicate Rounded(r: Region, d: Region) {
    && d.end % 0x800_0000 == 0 && d.end <= r.end < d.end + 0x800_0000
    && if r.start > 0x100_0000 then d.start % 0x800_0000 == 0 && r.start <= d.start < r.start + 0x800_0000
       else d.start == r.start
  }

  lemma AlignIsRounded(r: Region)
    ensures Rounded(r, Align(r))
  {
  }

  /** What realigning has to make of the regions, one by one. */
  ghost predicate RoundedFrom(m: seq<Region>, after: seq<Region>, s: nat, n: nat) {
    && s < n <= |m| == |after|
    && forall k :: 0 <= k < |m| ==>
         if m[s].start != 0 && s <= k < n then Rounded(m[k], after[k]) else after[k] == m[k]
  }

  lemma RealignedIsRounded(m: seq<Region>, s: nat, n: nat)
    requires s < n <= |m|
    ensures RoundedFrom(m, Realigned(m, s, n), s, n)
  {
    hide Align, Rounded;
    forall k | s <= k < n
      ensures Rounded(m[k], Align(m[k]))
    {
      AlignIsRounded(m[k]);
    }
  }

  method Realign(amemres: array<Region>, s: nat, ghost n: nat)
    requires s < n < amemres.Length && amemres[n] == Region(0, 0)
    requires Addresses(amemres[..n]) && amemres[s].end >= 0x100_0000
    modifies amemres
    ensures amemres[..] == Realigned(old(amemres[..]), s, n)
    ensures RoundedFrom(old(amemres[..]), amemres[..], s, n)
  {
    hide RoundedFrom;
    ghost var m := amemres[..];
    assert forall k :: 0 <= k < n ==> m[..n][k] == m[k];
    assert forall k :: s < k < n ==> m[k].start >= m[s].end;
    var a := s;
    while amemres[a].start != 0 && amemres[a].end != 0
      invariant s <= a <= n && (m[s].start == 0 ==> a == s)
      invariant forall k :: 0 <= k < amemres.Length ==> amemres[k] == if s <= k < a then Align(m[k]) else m[k]
      decreases n - a
    {
      if amemres[a].start > 0x100_0000 && amemres[a].start % 0x800_0000 != 0 {
        amemres[a] := amemres[a].(start := amemres[a].start - amemres[a].start % 0x800_0000);
        amemres[a] := amemres[a].(start := amemres[a].start + 0x800_0000);
      }
      if amemres[a].end % 0x800_0000 != 0 {
        amemres[a] := amemres[a].(end := amemres[a].end - amemres[a].end % 0x800_0000);
      }
      a := a + 1;
    }
    RealignedIsRounded(m, s, n);
  }

  /** The memory that partitions are cut from: everything below the end of region s, and the regions after it. */
  function Usable(m: seq<Region>, s: nat, n: nat): seq<Region>
    requires s < n <= |m|
  {
    [Region(0, m[s].end)] + m[s + 1..n]
  }

  predicate Multiple(x: int) { x % 0x800_0000 == 0 }

  lemma MultipleSum(a: int, b: int)
    requires Multiple(a) && Multiple(b)
    ensures Multiple(a + b) && Multiple(a - b)
  {
  }

  /** Every bound at which a partition may switch regions is a multiple of 128 MB. */
  ghost predicate Bounds(e: seq<Region>) {
    forall k :: 0 <= k < |e| ==> Multiple(e[k].start) && Multiple(e[k].end)
  }

  lemma FloorIs(x: int)
    ensures Multiple(Floor(x)) && Floor(x) <= x < Floor(x) + 0x800_0000
    ensures Multiple(Ceil(x)) && x <= Ceil(x) < x + 0x800_0000
  {
  }

  lemma CeilMonotone(x: int, y: int)
    requires x <= y
    ensures Ceil(x) <= Ceil(y)
  {
    assert Ceil(x) == (x + 0x7ff_ffff) / 0x800_0000 * 0x800_0000;
    assert Ceil(y) == (y + 0x7ff_ffff) / 0x800_0000 * 0x800_0000;
  }

  lemma AlignOrdered(a: Region, b: Region)
    requires a.start <= b.start && a.end <= b.start
    ensures Align(a).start <= Align(b).start && Align(a).end <= Align(b).start
  {
    hide Floor, Ceil;
    FloorIs(a.end);
    FloorIs(b.start);
    CeilMonotone(a.start, b.start);
  }

  lemma UsableAt(m: seq<Region>, s: nat, n: nat, k: nat)
    requires s < n <= |m| && Addresses(m[..n]) && m[s].end >= 0x100_0000 && k < n - s
    ensures var d := if m[s].start == 0 then m[s + k] else Align(m[s + k]);
            Usable(Realigned(m, s, n), s, n)[k] == if k == 0 then Region(0, d.end) else d
    ensures k == 0 || m[s + k].start >= m[s].end
  {
    assert m[..n][s] == m[s] && m[..n][s + k] == m[s + k];
  }

  /** Realigning makes all bounds multiples of 128 MB unless the first region starts at 0, so that nothing is done,
      or the next one starts right at the end of the reserved addresses, so that its start is left alone. */
  lemma RealignsUnless(m: seq<Region>, s: nat, n: nat)
    requires s < n <= |m| && Addresses(m[..n]) && m[s].end >= 0x100_0000
    ensures Bounds(Usable(Realigned(m, s, n), s, n)) <==>
            if m[s].start == 0 then Bounds(Usable(m, s, n)) else s + 1 < n ==> m[s + 1].start != 0x100_0000
  {
    var e := Usable(Realigned(m, s, n), s, n);
    if m[s].start == 0 {
      assert Realigned(m, s, n) == m;
    } else if s + 1 < n && m[s + 1].start == 0x100_0000 {
      UsableAt(m, s, n, 1);
      assert !Multiple(e[1].start);
    } else {
      hide Usable, Realigned, Floor, Ceil;
      assert |e| == n - s by { UsableLength(m, s, n); }
      forall k | 0 <= k < |e|
        ensures Multiple(e[k].start) && Multiple(e[k].end)
      {
        UsableAt(m, s, n, k);
        FloorIs(m[s + k].end);
        FloorIs(m[s + k].start);
        if k > 0 {
          AfterCap(m, s, n, k);
        }
      }
    }
  }

  lemma AfterCap(m: seq<Region>, s: nat, n: nat, k: nat)
    requires s < n <= |m| && Addresses(m[..n]) && m[s].end >= 0x100_0000 && 0 < k < n - s
    requires m[s + 1].start != 0x100_0000
    ensures m[s + k].start > 0x100_0000
  {
    assert m[..n][s] == m[s] && m[..n][s + 1] == m[s + 1] && m[..n][s + k] == m[s + k];
    assert m[..n][s].end <= m[..n][s + 1].start;
    assert k > 1 ==> m[..n][s + 1].start <= m[..n][s + k].start;
  }

  lemma UsableLength(m: seq<Region>, s: nat, n: nat)
    requires s < n <= |m|
    ensures |Usable(Realigned(m, s, n), s, n)| == n - s
  {
  }

  /** Realigning keeps the regions in order. */
  lemma RealignedOrdered(m: seq<Region>, s: nat, n: nat)
    requires s < n <= |m| && Addresses(m[..n]) && m[s].end >= 0x100_0000
    ensures Ordered(Usable(Realigned(m, s, n), s, n)) && Usable(Realigned(m, s, n), s, n)[0].end >= 0
  {
    hide Usable, Realigned, Floor, Ceil, Align;
    var e := Usable(Realigned(m, s, n), s, n);
    UsableLength(m, s, n);
    forall j, k | 0 <= j < k < |e|
      ensures e[j].start <= e[k].start && e[j].end <= e[k].start
    {
      UsableAt(m, s, n, j);
      UsableAt(m, s, n, k);
      assert m[..n][s + j] == m[s + j] && m[..n][s + k] == m[s + k];
      AlignOrdered(m[s + j], m[s + k]);
      StartsUp(m[s + k]);
    }
    UsableAt(m, s, n, 0);
    EndsUp(m[s]);
  }

  lemma StartsUp(r: Region)
    ensures Align(r).start >= r.start
  {
  }

  lemma EndsUp(r: Region)
    requires r.end >= 0
    ensures Align(r).end >= 0
  {
  }

  // ---------- Cutting ----------

  /** One printed partition: its addresses, the length printed for it, and the places in the list of usable regions
      where it starts and ends. */
  datatype Part = Part(start: int, end: int, total: int, first: nat, last: nat)

  /** What a partition has to be: its length is printed right; its ends lie in its first and last region; the RAM
      in it is what a CPU should get and, for each region passed over whose end has been rounded down below its
      start, the difference. */
  ghost predicate Cut(e: seq<Region>, p: Part, chunk: nat) {
    && p.total == p.end - p.start >= 0
    && p.first <= p.last && Inside(e, p.first, p.start) && Inside(e, p.last, p.end)
    && Ram(e, p.start, p.end) == chunk + Inverted(e, p.first, p.last)
  }

  /** The partitions tile the addresses from 0 on, and each ends in the first region that reaches far enough. */
  ghost predicate Tiles(e: seq<Region>, parts: seq<Part>, chunk: nat) {
    forall l :: 0 <= l < |parts| ==>
         Cut(e, parts[l], chunk) && Starts(parts, l) && Ends(e, parts[l], Times(l + 1, chunk))
  }

  function Times(a: nat, b: nat): nat { a * b }

  /** The first region with which the signed lengths reach need. */
  function Stop(e: seq<Region>, need: int): nat { StopFrom(e, need, 0) }

  function StopFrom(e: seq<Region>, need: int, k: nat): (n: nat)
    ensures n >= k
    decreases |e| - k
  {
    if k >= |e| || Prefix(e, k + 1) >= need then k else StopFrom(e, need, k + 1)
  }

  predicate Ends(e: seq<Region>, p: Part, need: int) {
    p.last == Stop(e, need) && p.last < |e| && Below(e, p.last, p.end) == need
  }

  predicate Starts(parts: seq<Part>, l: nat)
    requires l < |parts|
  {
    if l == 0 then parts[0].start == 0 && parts[0].first == 0
    else parts[l].start == parts[l - 1].end && parts[l].first == parts[l - 1].last
  }

  /** The first n regions do not reach so far. */
  ghost predicate Short(e: seq<Region>, n: nat, need: int)
    requires n <= |e|
  {
    forall k :: 0 < k <= n ==> Prefix(e, k) < need
  }

  ghost predicate Enough(e: seq<Region>, need: int) { !Short(e, |e|, need) }

  /** The list holds the usable regions from place s on; where the first one starts does not matter. */
  ghost predicate Listed(m: seq<Region>, s: nat, e: seq<Region>) {
    && |e| > 0 && Ordered(e) && e[0].start == 0
    && s + |e| < |m| && m[s].end == e[0].end
    && (forall k :: 1 <= k < |e| ==> m[s + k] == e[k] && e[k].start > 0)
    && forall k :: s + |e| <= k < |m| ==> m[k] == Region(0, 0)
  }

  lemma NextRegion(m: seq<Region>, s: nat, e: seq<Region>, j: nat)
    requires Listed(m, s, e) && (j < |e| || s + j < |m|)
    ensures |e| > 0 && s + |e| < |m| && Ordered(e)
    ensures j < |e| ==> m[s + j].end == e[j].end && Prefix(e, j + 1) == Prefix(e, j) + e[j].end - e[j].start
    ensures 0 < j < |e| ==> m[s + j] == e[j] && e[j - 1].end <= e[j].start && e[j - 1].start <= e[j].start
    ensures j >= |e| ==> m[s + j] == Region(0, 0)
  {
  }

  lemma {:induction false} StopIs(e: seq<Region>, need: int, k: nat, i: nat)
    requires k < |e| && i <= k && Short(e, k, need) && Prefix(e, k + 1) >= need
    ensures StopFrom(e, need, i) == k
    decreases k - i
  {
    if i < k {
      StopIs(e, need, k, i + 1);
    }
  }

  lemma ShortUp(e: seq<Region>, n: nat, need: int)
    requires n < |e| && Short(e, n, need) && Prefix(e, n) + e[n].end - e[n].start < need
    ensures Short(e, n + 1, need)
  {
  }

  lemma NotShort(e: seq<Region>, n: nat, need: int)
    requires n < |e| && Prefix(e, n) + e[n].end - e[n].start >= need
    ensures Enough(e, need)
  {
    assert Prefix(e, n + 1) >= need;
  }

  /** Cuts one partition; or runs off the list. The loop has no test for the end of the list: it goes on through
      the empty entries behind it and past the array, which is where this method stops. */
  method CutOne(amemres: array<Region>, ghost e: seq<Region>, s: nat, smemres0: nat, start: int, chunk: nat,
                ghost need: int)
    returns (smemres: nat, part: Part, ok: bool)
    requires Listed(amemres[..], s, e)
    requires s <= smemres0 && Inside(e, smemres0 - s, start)
    requires need == Below(e, smemres0 - s, start) + chunk && Short(e, smemres0 - s, need)
    ensures ok <==> Enough(e, need)
    ensures ok ==> Cut(e, part, chunk) && part.start == start && part.first == smemres0 - s && part.last == smemres - s
    ensures ok ==> s <= smemres && Inside(e, part.last, part.end) && Below(e, part.last, part.end) == need
    ensures ok ==> Ends(e, part, need) && Short(e, part.last, need)
  {
    hide Listed, Ordered, Short, Cut, Prefix, Stop;
    smemres := smemres0;
    ok := true;
    ghost var i: nat, base := smemres0 - s, start;
    NextRegion(amemres[..], s, e, i);
    var endend, avail := start + chunk, amemres[smemres].end - start;
    var required: int, total: int := chunk, chunk;
    ghost var j := i;
    while avail < required
      invariant i <= j && smemres == s + j < amemres.Length && ok
      invariant required >= 0 && avail == amemres[smemres].end - base && endend == base + required
      invariant total == endend - start
      invariant j < |e| ==> avail == e[j].end - base && e[j].start <= base && start <= base
      invariant j < |e| ==> Below(e, j, base) + required == need && Short(e, j, need)
      invariant j >= |e| ==> avail == 0 < required && Short(e, |e|, need)
      decreases amemres.Length - smemres
    {
      NextRegion(amemres[..], s, e, j);
      if j < |e| {
        ShortUp(e, j, need);
      }
      if smemres + 1 == amemres.Length {
        ok := false;
        break;
      }
      total := total + amemres[smemres + 1].start - amemres[smemres].end;
      smemres := smemres + 1;
      required := required - avail;
      avail := amemres[smemres].end - amemres[smemres].start;
      endend := amemres[smemres].start + required;
      j := j + 1;
      NextRegion(amemres[..], s, e, j);
      base := amemres[smemres].start;
    }
    part := Part(start, endend, total, smemres0 - s, smemres - s);
    if ok {
      NotShort(e, j, need);
      CutIs(e, part, chunk);
      StopHere(e, part, need);
    }
  }

  lemma StopHere(e: seq<Region>, p: Part, need: int)
    requires Inside(e, p.last, p.end) && Below(e, p.last, p.end) == need && Short(e, p.last, need)
    ensures Ends(e, p, need)
  {
    StopIs(e, need, p.last, 0);
  }

  lemma CutIs(e: seq<Region>, p: Part, chunk: nat)
    requires Ordered(e) && p.total == p.end - p.start >= 0 && p.first <= p.last
    requires Inside(e, p.first, p.start) && Inside(e, p.last, p.end)
    requires Below(e, p.last, p.end) == Below(e, p.first, p.start) + chunk
    ensures Cut(e, p, chunk)
  {
    RamBetween(e, p.start, p.end, p.first, p.last);
  }

  lemma ShortMonotone(e: seq<Region>, n: nat, n': nat, need: int, need': int)
    requires n' <= n <= |e| && Short(e, n, need) && need <= need'
    ensures Short(e, n', need')
  {
  }

  /** Cuts a partition for every CPU. */
  method CutAll(amemres: array<Region>, ghost e: seq<Region>, s: nat, cpuNum: nat, chunk: nat)
    returns (parts: seq<Part>, ok: bool)
    requires Listed(amemres[..], s, e) && e[0].end >= 0 && cpuNum > 0
    ensures ok <==> Enough(e, Times(cpuNum, chunk))
    ensures ok ==> |parts| == cpuNum && Tiles(e, parts, chunk)
  {
    hide Cut, Short, Times, Listed, Ordered, Ends, Tiles, Prefix, Stop;
    TilesNone(e, chunk);
    var l, smemres, start := 0, s, 0;
    parts := [];
    TimesUp(0, chunk);
    ShortNone(e, Times(0, chunk));
    NextIsFirst(amemres[..], s, e);
    while l < cpuNum
      invariant l <= cpuNum && |parts| == l && s <= smemres && Inside(e, smemres - s, start)
      invariant Below(e, smemres - s, start) == Times(l, chunk) && Short(e, smemres - s, Times(l, chunk))
      invariant Tiles(e, parts, chunk) && (l > 0 ==> Enough(e, Times(l, chunk)))
      invariant if l == 0 then start == 0 && smemres == s
                else start == parts[l - 1].end && smemres - s == parts[l - 1].last
    {
      TimesUp(l, chunk);
      ShortMonotone(e, smemres - s, smemres - s, Times(l, chunk), Times(l + 1, chunk));
      var last, part, found := CutOne(amemres, e, s, smemres, start, chunk, Times(l + 1, chunk));
      if !found {
        TimesMonotone(l + 1, cpuNum, chunk);
        ShortMonotone(e, |e|, |e|, Times(l + 1, chunk), Times(cpuNum, chunk));
        return parts, false;
      }
      TilesMore(e, parts, part, chunk);
      parts := parts + [part];
      smemres := last;
      start := part.end;
      l := l + 1;
    }
    ok := true;
  }

  lemma TimesUp(a: nat, b: nat)
    ensures Times(a + 1, b) == Times(a, b) + b && Times(0, b) == 0
  {
  }

  lemma {:induction false} TimesMonotone(a: nat, c: nat, b: nat)
    requires a <= c
    ensures Times(a, b) <= Times(c, b)
    decreases c - a
  {
    hide Times;
    if a < c {
      TimesMonotone(a, c - 1, b);
      TimesUp(c - 1, b);
    }
  }

  lemma ShortNone(e: seq<Region>, need: int)
    ensures Short(e, 0, need)
  {
  }

  lemma NextIsFirst(m: seq<Region>, s: nat, e: seq<Region>)
    requires Listed(m, s, e)
    ensures |e| > 0 && e[0].start == 0 && Below(e, 0, 0) == 0
  {
  }

  lemma TilesNone(e: seq<Region>, chunk: nat)
    ensures Tiles(e, [], chunk)
  {
  }

  lemma TilesMore(e: seq<Region>, parts: seq<Part>, p: Part, chunk: nat)
    requires Tiles(e, parts, chunk) && Cut(e, p, chunk) && Starts(parts + [p], |parts|)
    requires Ends(e, p, Times(|parts| + 1, chunk))
    ensures Tiles(e, parts + [p], chunk)
  {
    hide Cut, Ends, Times;
    var more := parts + [p];
    forall l | 0 <= l < |more|
      ensures Cut(e, more[l], chunk) && Starts(more, l) && Ends(e, more[l], Times(l + 1, chunk))
    {
      if l < |parts| {
        TilesAt(e, parts, chunk, l);
      }
    }
  }

  lemma TilesAt(e: seq<Region>, parts: seq<Part>, chunk: nat, l: nat)
    requires Tiles(e, parts, chunk) && l < |parts|
    ensures Cut(e, parts[l], chunk) && Starts(parts, l) && Ends(e, parts[l], Times(l + 1, chunk))
  {
    hide Cut, Ends, Times, Starts;
  }

  // ---------- The whole policy ----------

  /** The list that describes memory: regions in order, of which one reaches 16 MB, and then empty entries. */
  ghost predicate MemoryMap(m: seq<Region>) {
    && Count(m) < |m| && Addresses(m[..Count(m)]) && CapRegion(m[..Count(m)]) < Count(m)
    && forall k :: Count(m) <= k < |m| ==> m[k] == Region(0, 0)
  }

  /** The memory to divide: what the nodes report, and the holes below the first region that reaches 16 MB. */
  function Size(m: seq<Region>, totalByNode: nat): nat
    requires MemoryMap(m)
  {
    var list := m[..Count(m)];
    var s := CapRegion(list);
    HolesAreBelow(list, s);
    totalByNode + list[s].start - Ram(list, 0, list[s].start)
  }

  lemma HolesAreBelow(m: seq<Region>, s: nat)
    requires Addresses(m) && s < |m|
    ensures Ram(m, 0, m[s].start) == Prefix(m, s) <= m[s].start
  {
    RamFromZero(m, s, m[s].start);
    PrefixAtMost(m, s);
  }

  /** The realigned regions that partitions are cut from. */
  function UsableOf(m: seq<Region>): (e: seq<Region>)
    requires MemoryMap(m)
  {
    var n := Count(m);
    var s := CapRegion(m[..n]);
    Usable(Realigned(m, s, n), s, n)
  }

  /** What the policy has to leave for the memory m: the realigned list, the size of a partition and, exactly when the
      usable memory left by realigning suffices, a partition for every CPU. */
  ghost predicate Planned(m: seq<Region>, cpuNum: nat, totalByNode: nat, after: seq<Region>, parts: seq<Part>,
                          chunk: nat, ok: bool)
    requires MemoryMap(m) && cpuNum > 0
  {
    && after == Realigned(m, CapRegion(m[..Count(m)]), Count(m))
    && chunk == PartSize(Size(m, totalByNode), cpuNum)
    && (ok <==> Enough(UsableOf(m), Times(cpuNum, chunk)))
    && (ok ==> |parts| == cpuNum && Tiles(UsableOf(m), parts, chunk))
  }

  /** The list has n entries before the empty one. */
  ghost predicate ListEnds(m: seq<Region>, n: nat) {
    n < |m| && m[n] == Region(0, 0) && forall k :: 0 <= k < n ==> m[k] != Region(0, 0)
  }

  /** Region s is the first that reaches the end of the reserved 16 MB. */
  ghost predicate FirstReaching(m: seq<Region>, n: nat, s: nat) {
    s < n <= |m| && m[s].end >= 0x100_0000 && forall k :: 0 <= k < s ==> m[k].end < 0x100_0000
  }

  /** The chunk is the largest multiple of 128 MB of which every CPU can get one, out of the reported memory and of the
      holes below region s. */
  ghost predicate LargestShare(m: seq<Region>, n: nat, s: nat, cpuNum: nat, totalByNode: nat, chunk: nat)
    requires s < n <= |m|
  {
    && chunk % 0x800_0000 == 0
    && cpuNum * chunk <= totalByNode + m[s].start - Ram(m[..n], 0, m[s].start) < cpuNum * (chunk + 0x800_0000)
  }

  /** What the policy has to do before it cuts: it rounds the regions and computes the size of a partition. */
  ghost predicate Shared(m: seq<Region>, cpuNum: nat, totalByNode: nat, after: seq<Region>, chunk: nat) {
    exists n: nat, s: nat ::
      && ListEnds(m, n) && FirstReaching(m, n, s) && LargestShare(m, n, s, cpuNum, totalByNode, chunk)
      && RoundedFrom(m, after, s, n)
  }

  lemma {:induction false} CountEnds(m: seq<Region>)
    ensures Count(m) < |m| ==> ListEnds(m, Count(m))
  {
    if m != [] && m[0] != Region(0, 0) {
      CountEnds(m[1..]);
    }
  }

  lemma {:induction false} CapRegionFirst(m: seq<Region>)
    ensures CapRegion(m) < |m| ==> FirstReaching(m, |m|, CapRegion(m))
  {
    if m != [] && m[0].end < 0x100_0000 {
      CapRegionFirst(m[1..]);
    }
  }

  lemma FirstOfPrefix(m: seq<Region>, n: nat, s: nat)
    requires n <= |m| && FirstReaching(m[..n], n, s)
    ensures FirstReaching(m, n, s)
  {
    assert forall k :: 0 <= k < n ==> m[..n][k] == m[k];
  }

  /** When what the nodes report is the RAM of the list, the memory to divide is everything below the first usable
      region, holes included, and the RAM from there on. */
  lemma SizeOfWhole(m: seq<Region>, totalByNode: nat, hi: int)
    requires MemoryMap(m) && (forall k :: 0 <= k < Count(m) ==> m[k].end <= hi)
    requires totalByNode == Ram(m[..Count(m)], 0, hi)
    ensures var list, s := m[..Count(m)], CapRegion(m[..Count(m)]);
            Size(m, totalByNode) == m[s].start + Ram(list, m[s].start, hi)
  {
    var list, s := m[..Count(m)], CapRegion(m[..Count(m)]);
    assert list[s].start <= list[s].end <= hi;
    hide Ram;
    RamParts(list, 0, list[s].start, hi);
  }

  lemma {:induction false} RamParts(m: seq<Region>, lo: int, mid: int, hi: int)
    requires lo <= mid <= hi
    ensures Ram(m, lo, hi) == Ram(m, lo, mid) + Ram(m, mid, hi)
  {
    if m != [] {
      RamParts(m[..|m| - 1], lo, mid, hi);
    }
  }

  /** The whole policy. Whether every partition gets exactly its share of RAM, and whether all begin and end at
      multiples of 128 MB, depends on the memory, the number of CPUs and the reported total, as WillBeExact and
      WillBeAligned say. */
  method PartitionNoNodes(amemres: array<Region>, cpuNum: nat, totalByNode: nat)
    returns (parts: seq<Part>, alignedchunk: nat, ok: bool)
    requires cpuNum > 0 && MemoryMap(amemres[..])
    modifies amemres
    ensures Planned(old(amemres[..]), cpuNum, totalByNode, amemres[..], parts, alignedchunk, ok)
    ensures Shared(old(amemres[..]), cpuNum, totalByNode, amemres[..], alignedchunk)
    ensures ok ==> (Exact(UsableOf(old(amemres[..])), parts, alignedchunk) <==>
              WillBeExact(old(amemres[..]), cpuNum, totalByNode))
    ensures ok ==> (OnBoundaries(parts) <==> WillBeAligned(old(amemres[..]), cpuNum, totalByNode))
  {
    ghost var m0 := amemres[..];
    ghost var n := Count(m0);
    ghost var m := m0[..n];
    assert m == amemres[..n];
    var s := SkipCap(amemres, m);
    CapRegionReaches(m);
    var holes := HolesBelow(amemres, m, s);
    HolesAreBelow(m, s);
    alignedchunk := ChunkSize(totalByNode + holes, cpuNum);
    CountEnds(m0);
    CapRegionFirst(m);
    FirstOfPrefix(m0, n, s);
    assert LargestShare(m0, n, s, cpuNum, totalByNode, alignedchunk);
    Realign(amemres, s, n);
    ghost var e := UsableOf(m0);
    RealignedOrdered(m0, s, n);
    UsableListed(m0, s, n);
    parts, ok := CutAll(amemres, e, s, cpuNum, alignedchunk);
    if ok {
      ExactWhen(m0, cpuNum, totalByNode, amemres[..], parts, alignedchunk);
      AlignedWhen(m0, cpuNum, totalByNode, amemres[..], parts, alignedchunk);
    }
  }

  lemma UsableListed(m: seq<Region>, s: nat, n: nat)
    requires s < n < |m| && Addresses(m[..n]) && m[s].end >= 0x100_0000
    requires forall k :: n <= k < |m| ==> m[k] == Region(0, 0)
    requires Ordered(Usable(Realigned(m, s, n), s, n))
    ensures Listed(Realigned(m, s, n), s, Usable(Realigned(m, s, n), s, n))
  {
    var r := Realigned(m, s, n);
    var e := Usable(r, s, n);
    forall k | 1 <= k < |e|
      ensures r[s + k] == e[k] && e[k].start > 0
    {
      UsableAt(m, s, n, k);
      StartsUp(m[s + k]);
    }
  }

  // ---------- When the partitions are what they should be ----------

  /** Every partition begins and ends at a multiple of 128 MB. */
  ghost predicate OnBoundaries(parts: seq<Part>) {
    forall l :: 0 <= l < |parts| ==> Multiple(parts[l].start) && Multiple(parts[l].end)
  }

  /** The bytes below region k that are in no region; a region that is turned over counts for less. */
  function Gaps(e: seq<Region>, k: nat): int
    requires k < |e|
  {
    e[k].start - if k == 0 then 0 else e[k - 1].end - Gaps(e, k - 1)
  }

  lemma {:induction false} GapsArePrefix(e: seq<Region>, k: nat)
    requires k < |e|
    ensures Prefix(e, k) + Gaps(e, k) == e[k].start
  {
    if k > 0 {
      GapsArePrefix(e, k - 1);
    }
  }

  /** What lies in no region below region k adds up to a multiple of 128 MB. */
  predicate Straight(e: seq<Region>, k: nat)
    requires k < |e|
  {
    Multiple(Gaps(e, k))
  }

  lemma EndsStraight(e: seq<Region>, p: Part, need: int)
    requires Ends(e, p, need) && Multiple(need)
    ensures Multiple(p.end) <==> Straight(e, p.last)
  {
    hide Prefix, Multiple, Stop, Gaps;
    GapsArePrefix(e, p.last);
    var d := Gaps(e, p.last);
    if Multiple(d) {
      MultipleSum(need, d);
    }
    if Multiple(p.end) {
      MultipleSum(p.end, need);
    }
  }

  lemma MultipleTimes(l: nat, chunk: nat)
    requires Multiple(chunk)
    ensures Multiple(Times(l, chunk))
  {
    hide Multiple, Times;
    TimesUp(0, chunk);
    ZeroIsMultiple();
    for i := 0 to l
      invariant Multiple(Times(i, chunk))
    {
      TimesUp(i, chunk);
      MultipleSum(Times(i, chunk), chunk);
    }
  }

  lemma ZeroIsMultiple()
    ensures Multiple(0)
  {
  }

  /** The region in which partition l has to end is straight. */
  predicate StraightAt(e: seq<Region>, chunk: nat, l: nat) {
    Stop(e, Times(l + 1, chunk)) < |e| && Straight(e, Stop(e, Times(l + 1, chunk)))
  }

  /** How many of the k regions behind region s start right at the end of the reserved addresses. */
  function CapStarts(m: seq<Region>, s: nat, k: nat): nat
    requires s + k < |m|
  {
    if k == 0 then 0 else CapStarts(m, s, k - 1) + if m[s + k].start == 0x100_0000 then 1 else 0
  }

  /** The condition on the memory, when cpuNum partitions of a chunk each are cut from it. If regions are realigned:
      partitions are empty, or the number of regions whose start at 16 MB is left alone is a multiple of 8 (as a rule,
      there is none or one). If nothing is realigned: below every region in which a partition has to end, what lies in
      no region adds up to a multiple of 128 MB. */
  predicate CutsAligned(m: seq<Region>, s: nat, n: nat, cpuNum: nat, chunk: nat)
    requires s < n <= |m|
  {
    if m[s].start != 0 then chunk == 0 || CapStarts(m, s, n - s - 1) % 8 == 0
    else forall l :: 0 <= l < cpuNum ==> StraightAt(Usable(Realigned(m, s, n), s, n), chunk, l)
  }

  predicate WillBeAligned(m: seq<Region>, cpuNum: nat, totalByNode: nat)
    requires MemoryMap(m) && cpuNum > 0
  {
    CutsAligned(m, CapRegion(m[..Count(m)]), Count(m), cpuNum, PartSize(Size(m, totalByNode), cpuNum))
  }

  lemma PartStraight(e: seq<Region>, parts: seq<Part>, chunk: nat, l: nat)
    requires Tiles(e, parts, chunk) && Multiple(chunk) && l < |parts|
    ensures Multiple(parts[l].end) <==> StraightAt(e, chunk, l)
    ensures if l == 0 then Multiple(parts[l].start) else parts[l].start == parts[l - 1].end
  {
    hide Multiple, Straight, Tiles, Stop, Times, Cut;
    TilesAt(e, parts, chunk, l);
    MultipleTimes(l + 1, chunk);
    EndsStraight(e, parts[l], Times(l + 1, chunk));
    ZeroIsMultiple();
  }

  /** All partitions are on boundaries if and only if all the regions in which they have to end are straight. */
  lemma PartsStraight(e: seq<Region>, parts: seq<Part>, chunk: nat)
    requires Tiles(e, parts, chunk) && Multiple(chunk)
    ensures OnBoundaries(parts) <==> forall l :: 0 <= l < |parts| ==> StraightAt(e, chunk, l)
  {
    hide Multiple, Tiles, StraightAt;
    forall l | 0 <= l < |parts|
      ensures Multiple(parts[l].end) <==> StraightAt(e, chunk, l)
      ensures if l == 0 then Multiple(parts[l].start) else parts[l].start == parts[l - 1].end
    {
      PartStraight(e, parts, chunk, l);
    }
    if forall l :: 0 <= l < |parts| ==> StraightAt(e, chunk, l) {
      forall l | 0 <= l < |parts|
        ensures Multiple(parts[l].start) && Multiple(parts[l].end)
      {
        PartStraight(e, parts, chunk, l);
        if l > 0 {
          PartStraight(e, parts, chunk, l - 1);
        }
      }
    }
  }

  /** What lies in no region below region k, as far as it is not a multiple of 128 MB: 16 MB for each region that
      starts at 16 MB. */
  lemma {:induction false} RealignedGaps(m: seq<Region>, s: nat, n: nat, k: nat)
    requires s < n <= |m| && Addresses(m[..n]) && m[s].end >= 0x100_0000 && m[s].start != 0 && k < n - s
    ensures var e := Usable(Realigned(m, s, n), s, n);
            |e| == n - s && Multiple(Gaps(e, k) - 0x100_0000 * CapStarts(m, s, k))
  {
    hide Multiple, Usable, Realigned, Floor, Ceil, Addresses;
    UsableLength(m, s, n);
    UsableAt(m, s, n, k);
    ZeroIsMultiple();
    var e := Usable(Realigned(m, s, n), s, n);
    if k > 0 {
      var b := if m[s + k].start == 0x100_0000 then 1 else 0;
      RealignedGaps(m, s, n, k - 1);
      UsableAt(m, s, n, k - 1);
      FloorIs(m[s + k - 1].end);
      FloorIs(m[s + k].start);
      assert Multiple(e[k].start - 0x100_0000 * b);
      assert Multiple(e[k - 1].end);
      GapsStep(Gaps(e, k - 1), CapStarts(m, s, k - 1), e[k - 1].end, e[k].start, b);
    }
  }

  lemma GapsStep(g: int, c: int, a: int, x: int, b: int)
    requires Multiple(g - 0x100_0000 * c) && Multiple(a) && Multiple(x - 0x100_0000 * b)
    ensures Multiple(x - (a - g) - 0x100_0000 * (c + b))
  {
  }

  lemma Eighths(g: int, c: nat)
    requires Multiple(g - 0x100_0000 * c)
    ensures Multiple(g) <==> c % 8 == 0
  {
  }

  /** The regions that start at 16 MB come first. */
  lemma {:induction false} CapStartsFirst(m: seq<Region>, s: nat, n: nat, k: nat)
    requires s < n <= |m| && Addresses(m[..n]) && m[s].end >= 0x100_0000 && k < n - s
    ensures CapStarts(m, s, k) <= k
    ensures k > 0 && m[s + k].start == 0x100_0000 ==> CapStarts(m, s, k) == k
  {
    if k > 0 {
      CapStartsFirst(m, s, n, k - 1);
      if k > 1 {
        assert m[..n][s + k - 1] == m[s + k - 1] && m[..n][s + k] == m[s + k] && m[..n][s] == m[s];
        assert m[..n][s + k - 1].start <= m[..n][s + k].start && m[..n][s].end <= m[..n][s + k - 1].start;
      }
    }
  }

  lemma {:induction false} CapStartsSame(m: seq<Region>, s: nat, n: nat, k: nat)
    requires s < n <= |m| && Addresses(m[..n]) && m[s].end >= 0x100_0000 && CapStarts(m, s, n - s - 1) <= k < n - s
    ensures CapStarts(m, s, k) == CapStarts(m, s, n - s - 1)
    decreases n - k
  {
    hide Addresses;
    if k < n - s - 1 {
      CapStartsSame(m, s, n, k + 1);
      CapStartsFirst(m, s, n, k + 1);
    }
  }

  lemma {:induction false} StartsAtCapFirst(m: seq<Region>, s: nat, n: nat, k: nat)
    requires s < n <= |m| && Addresses(m[..n]) && m[s].end >= 0x100_0000 && 0 < k < n - s
    requires k <= CapStarts(m, s, n - s - 1)
    ensures m[s + k].start == 0x100_0000
  {
    hide Addresses;
    if m[s + k].start != 0x100_0000 {
      CapStartsFirst(m, s, n, k - 1);
      CapStartsUp(m, s, n, k);
      assert false;
    }
  }

  lemma {:induction false} CapStartsUp(m: seq<Region>, s: nat, n: nat, k: nat)
    requires s < n <= |m| && Addresses(m[..n]) && m[s].end >= 0x100_0000 && 0 < k < n - s
    requires m[s + k].start != 0x100_0000
    ensures CapStarts(m, s, n - s - 1) == CapStarts(m, s, k - 1)
    decreases n - k
  {
    if k < n - s - 1 {
      assert m[..n][s + k] == m[s + k] && m[..n][s + k + 1] == m[s + k + 1] && m[..n][s] == m[s];
      assert m[..n][s].end <= m[..n][s + k].start <= m[..n][s + k + 1].start;
      CapStartsUp(m, s, n, k + 1);
    }
  }

  lemma EndsBefore(m: seq<Region>, n: nat, j: nat, k: nat)
    requires j < k < n <= |m| && Addresses(m[..n])
    ensures 0 <= m[j].end <= m[k].start
  {
    assert m[..n][j] == m[j] && m[..n][k] == m[k];
  }

  lemma AlignAtCap(r: Region)
    requires 0 <= r.end <= 0x100_0000
    ensures Align(r).end == 0 && (r.start == 0x100_0000 ==> Align(r).start == 0x100_0000)
  {
  }

  lemma EmptyAtCap(m: seq<Region>, s: nat, n: nat, k: nat)
    requires s < n <= |m| && Addresses(m[..n]) && m[s].end >= 0x100_0000 && m[s].start != 0
    requires k < CapStarts(m, s, n - s - 1) <= n - s - 1
    ensures var e := Usable(Realigned(m, s, n), s, n); |e| == n - s && e[k].end <= e[k].start
  {
    hide Usable, Realigned, Addresses, CapStarts, Align;
    UsableLength(m, s, n);
    UsableAt(m, s, n, k);
    StartsAtCapFirst(m, s, n, k + 1);
    EndsBefore(m, n, s + k, s + (k + 1));
    AlignAtCap(m[s + k]);
    if k > 0 {
      StartsAtCapFirst(m, s, n, k);
    }
  }

  /** The regions up to the last that starts at 16 MB hold nothing. */
  lemma {:induction false} NothingAtCap(m: seq<Region>, s: nat, n: nat, k: nat)
    requires s < n <= |m| && Addresses(m[..n]) && m[s].end >= 0x100_0000 && m[s].start != 0
    requires k <= CapStarts(m, s, n - s - 1)
    ensures |Usable(Realigned(m, s, n), s, n)| == n - s > k && Prefix(Usable(Realigned(m, s, n), s, n), k) <= 0
  {
    hide Usable, Realigned, Addresses, CapStarts;
    UsableLength(m, s, n);
    CapStartsFirst(m, s, n, n - s - 1);
    if k > 0 {
      EmptyAtCap(m, s, n, k - 1);
      NothingAtCap(m, s, n, k - 1);
    }
  }

  lemma {:induction false} StopBeyond(e: seq<Region>, need: int, c: nat, i: nat)
    requires i <= c < |e| && Short(e, c, need)
    ensures StopFrom(e, need, i) >= c
    decreases c - i
  {
    if i < c {
      assert Prefix(e, i + 1) < need;
      StopBeyond(e, need, c, i + 1);
    }
  }

  lemma StopAtZero(e: seq<Region>)
    requires |e| > 0 && e[0].start == 0 && e[0].end >= 0
    ensures Stop(e, 0) == 0
  {
    assert Prefix(e, 1) == e[0].end;
  }

  /** A partition that is not empty ends behind all regions that start at 16 MB. */
  lemma EndsBehind(m: seq<Region>, s: nat, n: nat, need: int)
    requires s < n <= |m| && Addresses(m[..n]) && m[s].end >= 0x100_0000 && m[s].start != 0 && need > 0
    ensures |Usable(Realigned(m, s, n), s, n)| == n - s
    ensures Stop(Usable(Realigned(m, s, n), s, n), need) >= CapStarts(m, s, n - s - 1)
  {
    hide Usable, Realigned, Prefix, Addresses, StopFrom, CapStarts;
    var e := Usable(Realigned(m, s, n), s, n);
    var c := CapStarts(m, s, n - s - 1);
    UsableLength(m, s, n);
    CapStartsFirst(m, s, n, n - s - 1);
    forall i | 0 < i <= c
      ensures Prefix(e, i) < need
    {
      NothingAtCap(m, s, n, i);
    }
    StopBeyond(e, need, c, 0);
  }

  lemma RealignedStraight(m: seq<Region>, s: nat, n: nat, k: nat)
    requires s < n <= |m| && Addresses(m[..n]) && m[s].end >= 0x100_0000 && m[s].start != 0
    requires CapStarts(m, s, n - s - 1) <= k < n - s
    ensures |Usable(Realigned(m, s, n), s, n)| == n - s
    ensures Straight(Usable(Realigned(m, s, n), s, n), k) <==> CapStarts(m, s, n - s - 1) % 8 == 0
  {
    hide Usable, Realigned, Addresses, CapStarts, Gaps, Multiple;
    CapStartsSame(m, s, n, k);
    RealignedGaps(m, s, n, k);
    Eighths(Gaps(Usable(Realigned(m, s, n), s, n), k), CapStarts(m, s, k));
  }

  lemma EmptyStraight(m: seq<Region>, s: nat, n: nat)
    requires s < n <= |m| && Addresses(m[..n]) && m[s].end >= 0x100_0000
    ensures var e := Usable(Realigned(m, s, n), s, n); |e| > 0 && Stop(e, 0) == 0 && Straight(e, 0)
  {
    RealignedOrdered(m, s, n);
    UsableFirst(m, s, n);
    hide Usable, Realigned, Addresses, Multiple;
    StopAtZero(Usable(Realigned(m, s, n), s, n));
    ZeroIsMultiple();
  }

  /** When regions are realigned, the place where a partition ends is straight exactly under the condition. */
  lemma RealignedStraightAt(m: seq<Region>, s: nat, n: nat, chunk: nat, l: nat)
    requires s < n <= |m| && Addresses(m[..n]) && m[s].end >= 0x100_0000 && m[s].start != 0
    requires Stop(Usable(Realigned(m, s, n), s, n), Times(l + 1, chunk)) < |Usable(Realigned(m, s, n), s, n)|
    ensures StraightAt(Usable(Realigned(m, s, n), s, n), chunk, l) <==>
              chunk == 0 || CapStarts(m, s, n - s - 1) % 8 == 0
  {
    hide Usable, Realigned, Addresses, Multiple, Stop, CapStarts, Times, Straight;
    TimesZero(l, chunk);
    UsableLength(m, s, n);
    if chunk == 0 {
      EmptyStraight(m, s, n);
    } else {
      EndsBehind(m, s, n, Times(l + 1, chunk));
      RealignedStraight(m, s, n, Stop(Usable(Realigned(m, s, n), s, n), Times(l + 1, chunk)));
    }
  }

  lemma UsableFirst(m: seq<Region>, s: nat, n: nat)
    requires s < n <= |m|
    ensures |Usable(Realigned(m, s, n), s, n)| > 0 && Usable(Realigned(m, s, n), s, n)[0].start == 0
  {
  }

  lemma CutsAlignedWhen(m: seq<Region>, s: nat, n: nat, parts: seq<Part>, chunk: nat)
    requires s < n <= |m| && Addresses(m[..n]) && m[s].end >= 0x100_0000 && |parts| > 0
    requires Tiles(Usable(Realigned(m, s, n), s, n), parts, chunk) && Multiple(chunk)
    ensures OnBoundaries(parts) <==> CutsAligned(m, s, n, |parts|, chunk)
  {
    hide Multiple, StraightAt, Tiles, Usable, Realigned, OnBoundaries, Stop, CapStarts, Addresses;
    var e := Usable(Realigned(m, s, n), s, n);
    PartsStraight(e, parts, chunk);
    if m[s].start != 0 {
      forall l | 0 <= l < |parts|
        ensures StraightAt(e, chunk, l) <==> chunk == 0 || CapStarts(m, s, n - s - 1) % 8 == 0
      {
        TilesStop(e, parts, chunk, l);
        RealignedStraightAt(m, s, n, chunk, l);
      }
      assert StraightAt(e, chunk, 0) <==> chunk == 0 || CapStarts(m, s, n - s - 1) % 8 == 0;
    }
  }

  /** The partitions begin and end at multiples of 128 MB exactly under that condition. */
  lemma AlignedWhen(m: seq<Region>, cpuNum: nat, totalByNode: nat, after: seq<Region>, parts: seq<Part>, chunk: nat)
    requires MemoryMap(m) && cpuNum > 0 && Planned(m, cpuNum, totalByNode, after, parts, chunk, true)
    ensures OnBoundaries(parts) <==> WillBeAligned(m, cpuNum, totalByNode)
  {
    hide Multiple, Tiles, Size, PartSize, Usable, Realigned, Enough, OnBoundaries, Count, CapRegion, Addresses,
         CutsAligned;
    ChunkMultiple(Size(m, totalByNode), cpuNum);
    CapRegionReaches(m[..Count(m)]);
    CutsAlignedWhen(m, CapRegion(m[..Count(m)]), Count(m), parts, chunk);
  }

  lemma TilesStop(e: seq<Region>, parts: seq<Part>, chunk: nat, l: nat)
    requires Tiles(e, parts, chunk) && l < |parts|
    ensures Stop(e, Times(l + 1, chunk)) < |e|
  {
    hide Cut, Stop, Times;
    TilesAt(e, parts, chunk, l);
  }

  lemma TimesZero(l: nat, chunk: nat)
    ensures Times(l + 1, chunk) == 0 <==> chunk == 0
  {
    TimesUp(l, chunk);
    if chunk == 0 {
      assert Times(l + 1, 0) == 0;
    }
  }

  /** With all bounds multiples of 128 MB, so are the ends of all partitions. */
  lemma TilesAligned(e: seq<Region>, parts: seq<Part>, chunk: nat)
    requires Tiles(e, parts, chunk) && Bounds(e) && Multiple(chunk)
    ensures OnBoundaries(parts)
  {
    hide Multiple, Tiles, Bounds, Straight, Stop;
    forall l | 0 <= l < |parts|
      ensures StraightAt(e, chunk, l)
    {
      TilesAt(e, parts, chunk, l);
      BoundsStraight(e, parts[l].last);
    }
    PartsStraight(e, parts, chunk);
  }

  lemma ChunkMultiple(size: nat, cpuNum: nat)
    requires cpuNum > 0
    ensures Multiple(PartSize(size, cpuNum))
  {
    var q := size / 0x800_0000 / cpuNum;
    assert (q * 0x800_0000) % 0x800_0000 == 0;
  }

  /** When all bounds are multiples of 128 MB, all regions are straight. */
  lemma {:induction false} BoundsStraight(e: seq<Region>, k: nat)
    requires Bounds(e) && k < |e|
    ensures Straight(e, k)
  {
    hide Multiple;
    assert Multiple(e[k].start);
    if k > 0 {
      BoundsStraight(e, k - 1);
      assert Multiple(e[k - 1].end);
      MultipleSum(e[k - 1].end, Gaps(e, k - 1));
      MultipleSum(e[k].start, e[k - 1].end - Gaps(e, k - 1));
    }
  }

  /** Every partition has exactly as much RAM as it should. */
  ghost predicate Exact(e: seq<Region>, parts: seq<Part>, chunk: nat) {
    forall l :: 0 <= l < |parts| ==> Ram(e, parts[l].start, parts[l].end) == chunk
  }

  /** No region before place k ends below its start. */
  predicate UprightBefore(e: seq<Region>, k: nat)
    requires k <= |e|
  {
    forall i :: 0 <= i < k ==> e[i].start <= e[i].end
  }

  /** The partitions are exact if and only if none of the regions that they pass over has been turned over. */
  lemma {:induction false} ExactUnlessInverted(e: seq<Region>, parts: seq<Part>, chunk: nat, n: nat)
    requires Tiles(e, parts, chunk) && 0 < n <= |parts|
    ensures parts[n - 1].last < |e| && (Exact(e, parts[..n], chunk) <==> UprightBefore(e, parts[n - 1].last))
  {
    hide Ram, Inverted, Ends, Prefix, Tiles;
    TilesAt(e, parts, chunk, n - 1);
    var p := parts[n - 1];
    Upright(e, p.first, p.last);
    assert parts[..n][n - 1] == p;
    if n > 1 {
      ExactUnlessInverted(e, parts, chunk, n - 1);
      ExactOneMore(e, parts, chunk, n);
      UprightOn(e, p.first, p.last);
    } else {
      assert parts[..1] == [p];
      UprightOn(e, 0, p.last);
    }
  }

  lemma ExactOneMore(e: seq<Region>, parts: seq<Part>, chunk: nat, n: nat)
    requires 0 < n <= |parts|
    ensures Exact(e, parts[..n], chunk) <==>
              Exact(e, parts[..n - 1], chunk) && Ram(e, parts[n - 1].start, parts[n - 1].end) == chunk
  {
    hide Ram;
    var more, less := parts[..n], parts[..n - 1];
    assert forall l :: 0 <= l < n - 1 ==> more[l] == less[l];
    assert more[n - 1] == parts[n - 1];
  }

  lemma UprightOn(e: seq<Region>, j: nat, k: nat)
    requires j <= k <= |e|
    ensures UprightBefore(e, k) <==> UprightBefore(e, j) && forall i :: j <= i < k ==> e[i].start <= e[i].end
  {
  }

  /** The region holds a multiple of 128 MB, ends included. */
  predicate HoldsMultiple(r: Region) { r.start <= Floor(r.end) }

  lemma HoldsMultipleIs(r: Region)
    ensures HoldsMultiple(r) <==> exists x :: Multiple(x) && r.start <= x <= r.end
  {
    hide Floor, Ceil, Multiple;
    FloorIs(r.end);
    forall x | Multiple(x) && r.start <= x <= r.end
      ensures HoldsMultiple(r)
    {
      Between(r.start, x, r.end);
    }
  }

  lemma Between(a: int, x: int, b: int)
    requires a <= x <= b && Multiple(x)
    ensures Ceil(a) <= x <= Floor(b)
  {
    CeilMonotone(a, x);
    assert Floor(b) == b / 0x800_0000 * 0x800_0000;
  }

  /** Rounding turns a region behind the reserved addresses over exactly when it holds no such multiple. */
  lemma TurnedOver(r: Region)
    requires r.start >= 0x100_0000 && r.start <= r.end
    ensures Align(r).end < Align(r).start <==> !HoldsMultiple(r)
  {
    hide Floor, Ceil, Multiple;
    FloorIs(r.start);
    FloorIs(r.end);
    if HoldsMultiple(r) {
      Between(r.start, Floor(r.end), r.end);
    }
  }

  /** The condition on the input: nothing is realigned, or all regions behind the first one that reaches 16 MB, up to
      but not including the one where the last partition ends, hold a multiple of 128 MB. */
  predicate WillBeExact(m: seq<Region>, cpuNum: nat, totalByNode: nat)
    requires MemoryMap(m) && cpuNum > 0
  {
    var n := Count(m);
    var s := CapRegion(m[..n]);
    var last := Stop(UsableOf(m), Times(cpuNum, PartSize(Size(m, totalByNode), cpuNum)));
    m[s].start == 0 || forall k :: s < k < s + last && k < n ==> HoldsMultiple(m[k])
  }

  /** Where a region came from, and whether it was turned over. */
  lemma UsableUpright(m: seq<Region>, s: nat, n: nat, k: nat)
    requires s < n <= |m| && Addresses(m[..n]) && m[s].end >= 0x100_0000 && k < n - s
    ensures |Usable(Realigned(m, s, n), s, n)| == n - s
    ensures var e := Usable(Realigned(m, s, n), s, n);
            e[k].start <= e[k].end <==> k == 0 || m[s].start == 0 || HoldsMultiple(m[s + k])
  {
    hide Usable, Realigned, HoldsMultiple, Align;
    UsableLength(m, s, n);
    UsableAt(m, s, n, k);
    assert m[..n][s + k] == m[s + k] && m[..n][s] == m[s];
    if k > 0 {
      TurnedOver(m[s + k]);
    } else {
      EndsUp(m[s]);
    }
  }

  lemma ExactWhen(m: seq<Region>, cpuNum: nat, totalByNode: nat, after: seq<Region>, parts: seq<Part>, chunk: nat)
    requires MemoryMap(m) && cpuNum > 0 && Planned(m, cpuNum, totalByNode, after, parts, chunk, true)
    ensures Exact(UsableOf(m), parts, chunk) <==> WillBeExact(m, cpuNum, totalByNode)
  {
    hide Exact, HoldsMultiple, Tiles, Realigned, Usable, Stop, Size, PartSize, Times, Enough;
    var n := Count(m);
    var s := CapRegion(m[..n]);
    CapRegionReaches(m[..n]);
    var e := UsableOf(m);
    UsableLength(m, s, n);
    TilesAt(e, parts, chunk, cpuNum - 1);
    ExactUnlessInverted(e, parts, chunk, cpuNum);
    assert parts[..cpuNum] == parts;
    var last := parts[cpuNum - 1].last;
    forall k: nat | k < last
      ensures e[k].start <= e[k].end <==> k == 0 || m[s].start == 0 || HoldsMultiple(m[s + k])
    {
      UsableUpright(m, s, n, k);
    }
    SameCondition(m, s, n, e, last);
  }

  lemma SameCondition(m: seq<Region>, s: nat, n: nat, e: seq<Region>, last: nat)
    requires s < n <= |m| && |e| == n - s && last < |e|
    requires forall k: nat :: k < last ==>
               (e[k].start <= e[k].end <==> k == 0 || m[s].start == 0 || HoldsMultiple(m[s + k]))
    ensures UprightBefore(e, last) <==> m[s].start == 0 || forall k :: s < k < s + last && k < n ==> HoldsMultiple(m[k])
  {
    hide HoldsMultiple;
    if UprightBefore(e, last) && m[s].start != 0 {
      forall k | s < k < s + last && k < n
        ensures HoldsMultiple(m[k])
      {
        assert e[k - s].start <= e[k - s].end;
        assert m[s + (k - s)] == m[k];
      }
    }
    if m[s].start == 0 || forall k :: s < k < s + last && k < n ==> HoldsMultiple(m[k]) {
      forall i | 0 <= i < last
        ensures e[i].start <= e[i].end
      {
        if i > 0 && m[s].start != 0 {
          assert HoldsMultiple(m[s + i]);
        }
      }
    }
  }

  // ---------- Memory for which the policy does not do what it should ----------

  lemma SizeAtFirst(m: seq<Region>, totalByNode: nat)
    requires MemoryMap(m) && CapRegion(m[..Count(m)]) == 0
    ensures Size(m, totalByNode) == totalByNode + m[0].start
  {
    HolesAreBelow(m[..Count(m)], 0);
    hide Ram;
  }

  lemma RamOfTwo(a: Region, b: Region, lo: int, hi: int)
    ensures Ram([a, b], lo, hi) == Overlap(a, lo, hi) + Overlap(b, lo, hi)
  {
    assert [a, b][..1] == [a] && [a][..0] == [];
    assert Ram([a], lo, hi) == Overlap(a, lo, hi);
  }

  lemma RamOfThree(a: Region, b: Region, c: Region, lo: int, hi: int)
    ensures Ram([a, b, c], lo, hi) == Overlap(a, lo, hi) + Overlap(b, lo, hi) + Overlap(c, lo, hi)
  {
    assert [a, b, c][..2] == [a, b];
    RamOfTwo(a, b, lo, hi);
  }

  /** 1 MB to 128 MB, 144 MB to 160 MB, 256 MB to 512 MB. */
  const TURNED_MAP := [
    Region(0x10_0000, 0x800_0000), Region(0x900_0000, 0xa00_0000), Region(0x1000_0000, 0x2000_0000), Region(0, 0)]

  lemma TurnedMap()
    ensures MemoryMap(TURNED_MAP) && Count(TURNED_MAP) == 3 && CapRegion(TURNED_MAP[..3]) == 0
    ensures UsableOf(TURNED_MAP)
              == [Region(0, 0x800_0000), Region(0x1000_0000, 0x800_0000), Region(0x1000_0000, 0x2000_0000)]
  {
    var m := TURNED_MAP;
    CountIs(m, 3);
    CapRegionIs(m[..3], 0);
    assert Realigned(m, 0, 3)[1] == Region(0x1000_0000, 0x800_0000);
    assert Realigned(m, 0, 3)[2] == Region(0x1000_0000, 0x2000_0000);
  }

  lemma TurnedStops(e: seq<Region>)
    requires e == [Region(0, 0x800_0000), Region(0x1000_0000, 0x800_0000), Region(0x1000_0000, 0x2000_0000)]
    ensures Prefix(e, 1) == 0x800_0000 && Prefix(e, 2) == 0 && Prefix(e, 3) == 0x1000_0000
    ensures Stop(e, 0x800_0000) == 0 && Stop(e, 0x1000_0000) == 2 && Inverted(e, 0, 2) == 0x800_0000
    ensures Enough(e, 0x1000_0000)
  {
    assert Prefix(e, 1) == 0x800_0000;
    assert Prefix(e, 2) == 0;
    assert Inverted(e, 0, 1) == 0;
    StopIs(e, 0x800_0000, 0, 0);
    StopIs(e, 0x1000_0000, 2, 0);
    NotShort(e, 2, 0x1000_0000);
  }

  lemma TurnedSize()
    ensures MemoryMap(TURNED_MAP) && PartSize(Size(TURNED_MAP, 0x18f0_0000), 2) == 0x800_0000
  {
    TurnedMap();
    hide MemoryMap, UsableOf, Size, Count, CapRegion;
    SizeAtFirst(TURNED_MAP, 0x18f0_0000);
    assert PartSize(0x1900_0000, 2) == 0x800_0000;
  }

  lemma TurnedRam()
    ensures Ram(TURNED_MAP[..3], 0, 0x2000_0000) == 0x18f0_0000
  {
    hide Ram;
    assert TURNED_MAP[..3] == [TURNED_MAP[0], TURNED_MAP[1], TURNED_MAP[2]];
    RamOfThree(TURNED_MAP[0], TURNED_MAP[1], TURNED_MAP[2], 0, 0x2000_0000);
  }

  lemma TurnedNotExact()
    ensures MemoryMap(TURNED_MAP) && !WillBeExact(TURNED_MAP, 2, 0x18f0_0000)
  {
    TurnedMap();
    TurnedSize();
    TurnedHolds();
    hide MemoryMap, UsableOf, Size, PartSize, Stop, HoldsMultiple, Count, CapRegion, WillBeExact, Times, Prefix,
         Inverted, Enough;
    TurnedStops(UsableOf(TURNED_MAP));
    NotExactAt(TURNED_MAP, 2, 0x18f0_0000, 1);
  }

  lemma TurnedHolds()
    ensures Times(2, 0x800_0000) == 0x1000_0000 && !HoldsMultiple(TURNED_MAP[1])
  {
  }

  lemma NotExactAt(m: seq<Region>, cpuNum: nat, totalByNode: nat, k: nat)
    requires MemoryMap(m) && cpuNum > 0 && CapRegion(m[..Count(m)]) == 0 && m[0].start != 0 && 0 < k < Count(m)
    requires k < Stop(UsableOf(m), Times(cpuNum, PartSize(Size(m, totalByNode), cpuNum))) && !HoldsMultiple(m[k])
    ensures !WillBeExact(m, cpuNum, totalByNode)
  {
    hide MemoryMap, UsableOf, Size, PartSize, Stop, HoldsMultiple, Count, CapRegion, Times;
  }

  /** Two CPUs on that memory should get 128 MB each. Whatever comes out, the second one gets 256 MB: the partition
      passes over the region from 144 MB to 160 MB, which rounding has turned over. */
  lemma PassedOver()
    ensures MemoryMap(TURNED_MAP) && Ram(TURNED_MAP[..3], 0, 0x2000_0000) == 0x18f0_0000
    ensures !WillBeExact(TURNED_MAP, 2, 0x18f0_0000)
    ensures forall after, parts: seq<Part>, chunk, ok ::
              Planned(TURNED_MAP, 2, 0x18f0_0000, after, parts, chunk, ok) ==>
              ok && chunk == 0x800_0000 && Ram(UsableOf(TURNED_MAP), parts[1].start, parts[1].end) == 0x1000_0000
  {
    TurnedMap();
    TurnedSize();
    TurnedRam();
    TurnedNotExact();
    hide Ram, MemoryMap, UsableOf, Size, PartSize, Stop, Realigned, WillBeExact, Tiles, Enough, CapRegion, Count;
    var e := UsableOf(TURNED_MAP);
    TurnedStops(e);
    forall after, parts: seq<Part>, chunk, ok | Planned(TURNED_MAP, 2, 0x18f0_0000, after, parts, chunk, ok)
      ensures ok && chunk == 0x800_0000 && Ram(e, parts[1].start, parts[1].end) == 0x1000_0000
    {
      TurnedParts(e, parts);
    }
  }

  lemma TurnedParts(e: seq<Region>, parts: seq<Part>)
    requires e == [Region(0, 0x800_0000), Region(0x1000_0000, 0x800_0000), Region(0x1000_0000, 0x2000_0000)]
    requires |parts| == 2 && Tiles(e, parts, 0x800_0000)
    ensures Ram(e, parts[1].start, parts[1].end) == 0x1000_0000
  {
    hide Ram, Prefix, Stop;
    TurnedStops(e);
    TilesAt(e, parts, 0x800_0000, 0);
    TilesAt(e, parts, 0x800_0000, 1);
  }

  /** 1 MB to 192 MB, 256 MB to 320 MB. */
  const LOSSY_MAP := [Region(0x10_0000, 0xc00_0000), Region(0x1000_0000, 0x1400_0000), Region(0, 0)]

  lemma LossyMap()
    ensures MemoryMap(LOSSY_MAP) && Count(LOSSY_MAP) == 2 && CapRegion(LOSSY_MAP[..2]) == 0
    ensures UsableOf(LOSSY_MAP) == [Region(0, 0x800_0000), Region(0x1000_0000, 0x1000_0000)]
  {
    var m := LOSSY_MAP;
    CountIs(m, 2);
    CapRegionIs(m[..2], 0);
    assert Realigned(m, 0, 2)[1] == Region(0x1000_0000, 0x1000_0000);
  }

  lemma LossySize()
    ensures MemoryMap(LOSSY_MAP) && PartSize(Size(LOSSY_MAP, 0xff0_0000), 2) == 0x800_0000
  {
    LossyMap();
    hide MemoryMap, UsableOf, Size, Count, CapRegion;
    SizeAtFirst(LOSSY_MAP, 0xff0_0000);
    assert PartSize(0x1000_0000, 2) == 0x800_0000;
  }

  lemma LossyRam()
    ensures Ram(LOSSY_MAP[..2], 0, 0x1400_0000) == 0xff0_0000
  {
    hide Ram;
    assert LOSSY_MAP[..2] == [LOSSY_MAP[0], LOSSY_MAP[1]];
    RamOfTwo(LOSSY_MAP[0], LOSSY_MAP[1], 0, 0x1400_0000);
  }

  /** Two CPUs on that memory should get 128 MB each, but rounding leaves 128 MB in all: no outcome has partitions. */
  lemma TooLittleLeft()
    ensures MemoryMap(LOSSY_MAP) && Ram(LOSSY_MAP[..2], 0, 0x1400_0000) == 0xff0_0000
    ensures forall after, parts: seq<Part>, chunk, ok ::
              Planned(LOSSY_MAP, 2, 0xff0_0000, after, parts, chunk, ok) ==>
              chunk == 0x800_0000 && !ok
  {
    LossyMap();
    LossySize();
    LossyRam();
    LossyLengths(UsableOf(LOSSY_MAP));
    hide Ram, MemoryMap, UsableOf, Size, PartSize, Realigned, Tiles, Enough, CapRegion, Count;
  }

  lemma LossyLengths(e: seq<Region>)
    requires e == [Region(0, 0x800_0000), Region(0x1000_0000, 0x1000_0000)]
    ensures !Enough(e, 0x1000_0000)
  {
    assert Prefix(e, 1) == 0x800_0000;
    assert Prefix(e, 2) == 0x800_0000;
  }

  /** The first of several partitions, when the first of two regions does not reach far enough. */
  lemma InSecond(e: seq<Region>, parts: seq<Part>, chunk: nat)
    requires |e| == 2 && e[0].start == 0 && e[0].end < chunk && |parts| > 0 && Tiles(e, parts, chunk)
    requires e[0].end + e[1].end - e[1].start >= chunk
    ensures parts[0].end == e[1].start + chunk - e[0].end
  {
    assert Prefix(e, 1) == e[0].end;
    assert Prefix(e, 2) == e[0].end + e[1].end - e[1].start;
    hide Prefix, Tiles;
    TimesUp(0, chunk);
    TilesAt(e, parts, chunk, 0);
    StopIs(e, chunk, 1, 0);
  }

  lemma EnoughOfTwo(e: seq<Region>, need: int)
    requires |e| == 2 && e[0].start == 0 && e[0].end + e[1].end - e[1].start >= need
    ensures Enough(e, need)
  {
    assert Prefix(e, 1) == e[0].end;
    NotShort(e, 1, need);
  }

  /** 1 MB to 16 MB, 16 MB to 384 MB. */
  const CAP_MAP := [Region(0x10_0000, 0x100_0000), Region(0x100_0000, 0x1800_0000), Region(0, 0)]

  lemma CapMap()
    ensures MemoryMap(CAP_MAP) && Count(CAP_MAP) == 2 && CapRegion(CAP_MAP[..2]) == 0
    ensures UsableOf(CAP_MAP) == [Region(0, 0), Region(0x100_0000, 0x1800_0000)]
  {
    var m := CAP_MAP;
    CountIs(m, 2);
    CapRegionIs(m[..2], 0);
    assert Realigned(m, 0, 2)[1] == Region(0x100_0000, 0x1800_0000);
  }

  lemma CapSize()
    ensures MemoryMap(CAP_MAP) && PartSize(Size(CAP_MAP, 0x17f0_0000), 2) == 0x800_0000
  {
    CapMap();
    hide MemoryMap, UsableOf, Size, Count, CapRegion;
    SizeAtFirst(CAP_MAP, 0x17f0_0000);
    assert PartSize(0x1800_0000, 2) == 0x800_0000;
  }

  lemma CapRam()
    ensures Ram(CAP_MAP[..2], 0, 0x1800_0000) == 0x17f0_0000
  {
    hide Ram;
    assert CAP_MAP[..2] == [CAP_MAP[0], CAP_MAP[1]];
    RamOfTwo(CAP_MAP[0], CAP_MAP[1], 0, 0x1800_0000);
  }

  /** Two CPUs on that memory get 128 MB each, but the first partition ends at 144 MB. */
  lemma StartsAtCap()
    ensures MemoryMap(CAP_MAP) && Ram(CAP_MAP[..2], 0, 0x1800_0000) == 0x17f0_0000
    ensures forall after, parts: seq<Part>, chunk, ok ::
              Planned(CAP_MAP, 2, 0x17f0_0000, after, parts, chunk, ok) ==>
              ok && chunk == 0x800_0000 && parts[0].end == 0x900_0000 && !OnBoundaries(parts)
  {
    hide *;
    CapMap();
    CapSize();
    CapRam();
    CapNumbers();
    forall after, parts: seq<Part>, chunk, ok | Planned(CAP_MAP, 2, 0x17f0_0000, after, parts, chunk, ok)
      ensures ok && chunk == 0x800_0000 && |parts| == 2 && parts[0].end == 0x900_0000 && !OnBoundaries(parts)
    {
      CapRun(after, parts, chunk, ok);
    }
  }

  lemma CapNumbers()
    ensures Times(2, 0x800_0000) == 0x1000_0000 && !Multiple(0x900_0000)
  {
  }

  lemma CapRun(after: seq<Region>, parts: seq<Part>, chunk: nat, ok: bool)
    requires MemoryMap(CAP_MAP) && Planned(CAP_MAP, 2, 0x17f0_0000, after, parts, chunk, ok)
    ensures ok && chunk == 0x800_0000 && |parts| == 2 && parts[0].end == 0x900_0000 && !OnBoundaries(parts)
  {
    hide Ram, MemoryMap, UsableOf, Size, PartSize, Tiles, Enough, CapRegion, Count, Multiple, Times, Realigned;
    CapMap();
    CapSize();
    CapNumbers();
    EnoughOfTwo(UsableOf(CAP_MAP), 0x1000_0000);
    InSecond(UsableOf(CAP_MAP), parts, chunk);
  }

  /** 0 to 272 MB, 512 MB to 1 GB. */
  const ZERO_MAP := [Region(0, 0x1100_0000), Region(0x2000_0000, 0x4000_0000), Region(0, 0)]

  lemma ZeroMap()
    ensures MemoryMap(ZERO_MAP) && Count(ZERO_MAP) == 2 && CapRegion(ZERO_MAP[..2]) == 0
    ensures UsableOf(ZERO_MAP) == [Region(0, 0x1100_0000), Region(0x2000_0000, 0x4000_0000)]
  {
    var m := ZERO_MAP;
    CountIs(m, 2);
    CapRegionIs(m[..2], 0);
    assert Realigned(m, 0, 2) == m;
  }

  lemma ZeroSize()
    ensures MemoryMap(ZERO_MAP) && PartSize(Size(ZERO_MAP, 0x3100_0000), 2) == 0x1800_0000
  {
    ZeroMap();
    hide MemoryMap, UsableOf, Size, Count, CapRegion;
    SizeAtFirst(ZERO_MAP, 0x3100_0000);
    assert PartSize(0x3100_0000, 2) == 0x1800_0000;
  }

  lemma ZeroRam()
    ensures Ram(ZERO_MAP[..2], 0, 0x4000_0000) == 0x3100_0000
  {
    hide Ram;
    assert ZERO_MAP[..2] == [ZERO_MAP[0], ZERO_MAP[1]];
    RamOfTwo(ZERO_MAP[0], ZERO_MAP[1], 0, 0x4000_0000);
  }

  /** Two CPUs on that memory get 384 MB each, but the first partition ends at 624 MB: nothing has been realigned. */
  lemma StartsAtZero()
    ensures MemoryMap(ZERO_MAP) && Ram(ZERO_MAP[..2], 0, 0x4000_0000) == 0x3100_0000
    ensures forall after, parts: seq<Part>, chunk, ok ::
              Planned(ZERO_MAP, 2, 0x3100_0000, after, parts, chunk, ok) ==>
              ok && chunk == 0x1800_0000 && after == ZERO_MAP && parts[0].end == 0x2700_0000 && !OnBoundaries(parts)
  {
    hide *;
    ZeroMap();
    ZeroSize();
    ZeroRam();
    ZeroNumbers();
    forall after, parts: seq<Part>, chunk, ok | Planned(ZERO_MAP, 2, 0x3100_0000, after, parts, chunk, ok)
      ensures ok && chunk == 0x1800_0000 && after == ZERO_MAP && |parts| == 2 && parts[0].end == 0x2700_0000
      ensures !OnBoundaries(parts)
    {
      ZeroRun(after, parts, chunk, ok);
    }
  }

  lemma ZeroNumbers()
    ensures Times(2, 0x1800_0000) == 0x3000_0000 && !Multiple(0x2700_0000)
  {
  }

  lemma ZeroRun(after: seq<Region>, parts: seq<Part>, chunk: nat, ok: bool)
    requires MemoryMap(ZERO_MAP) && Planned(ZERO_MAP, 2, 0x3100_0000, after, parts, chunk, ok)
    ensures ok && chunk == 0x1800_0000 && after == ZERO_MAP && |parts| == 2 && parts[0].end == 0x2700_0000
    ensures !OnBoundaries(parts)
  {
    hide Ram, MemoryMap, UsableOf, Size, PartSize, Tiles, Enough, CapRegion, Count, Multiple, Times;
    ZeroMap();
    ZeroSize();
    ZeroNumbers();
    EnoughOfTwo(UsableOf(ZERO_MAP), 0x3000_0000);
    InSecond(UsableOf(ZERO_MAP), parts, chunk);
  }
}
