/**
 Address ranges: merging to a normal form, subtraction with a shared cursor, and the
 address policy built on them.
 */
module Targets {
  import opened Words
  import opened Bits

  /** An inclusive address range.  No function of the scanner builds one with `end < start`. */
  datatype Ipv4Range = Ipv4Range(start: u32, end: u32) {
    predicate Has(x: int) { start <= x <= end }
  }

  predicate Proper(rs: seq<Ipv4Range>) {
    forall r | r in rs :: r.start <= r.end
  }

  /** The address `x` lies in one of the ranges. */
  ghost predicate Covers(rs: seq<Ipv4Range>, x: int) {
    exists r :: r in rs && r.Has(x)
  }

  /** Sorted, disjoint and not even adjacent. */
  predicate Normal(rs: seq<Ipv4Range>) {
    && Proper(rs)
    && (forall i, j | 0 <= i < j < |rs| :: rs[i].end + 1 < rs[j].start)
  }

  predicate SortedByStart(rs: seq<Ipv4Range>) {
    forall i, j | 0 <= i < j < |rs| :: rs[i].start <= rs[j].start
  }

  lemma CoversAppend(a: seq<Ipv4Range>, b: seq<Ipv4Range>, x: int)
    ensures Covers(a + b, x) <==> Covers(a, x) || Covers(b, x)
  {
    if Covers(a, x) { var r :| r in a && r.Has(x); assert r in a + b; }
    if Covers(b, x) { var r :| r in b && r.Has(x); assert r in a + b; }
  }

  lemma CoversOne(r: Ipv4Range, x: int)
    ensures Covers([r], x) <==> r.Has(x)
  {
    assert r in [r];
  }

  lemma CoversExtend(a: seq<Ipv4Range>, r: Ipv4Range)
    ensures forall x :: Covers(a + [r], x) <==> Covers(a, x) || r.Has(x)
  {
    forall x ensures Covers(a + [r], x) <==> Covers(a, x) || r.Has(x) {
      CoversAppend(a, [r], x);
      CoversOne(r, x);
    }
  }

  /** Insertion before the first range that does not start earlier. */
  function InsertByStart(sorted: seq<Ipv4Range>, r: Ipv4Range): (out: seq<Ipv4Range>)
    requires SortedByStart(sorted)
    ensures SortedByStart(out)
    ensures forall t :: t in out <==> t in sorted || t == r
  {
    if sorted == [] || r.start <= sorted[0].start then [r] + sorted
    else
      var rest := InsertByStart(sorted[1..], r);
      assert forall t | t in rest :: sorted[0].start <= t.start;
      [sorted[0]] + rest
  }

  /** Stands for the library's `sort_unstable_by_key`; `Merge` depends on nothing but its contract. */
  method SortByStart(ranges: seq<Ipv4Range>) returns (sorted: seq<Ipv4Range>)
    ensures SortedByStart(sorted)
    ensures forall t :: t in sorted <==> t in ranges
  {
    sorted := [];
    for i := 0 to |ranges|
      invariant SortedByStart(sorted)
      invariant forall t :: t in sorted <==> t in ranges[..i]
    {
      assert ranges[..i + 1] == ranges[..i] + [ranges[i]];
      sorted := InsertByStart(sorted, ranges[i]);
    }
  }

  /** `last.end = last.end.max(r.end)`. */
  function WidenLast(out: seq<Ipv4Range>, r: Ipv4Range): (w: seq<Ipv4Range>)
    requires Normal(out) && out != []
    requires out[|out| - 1].start <= r.start <= out[|out| - 1].end + 1 && r.start <= r.end
    ensures Normal(w) && w != [] && w[|w| - 1].start == out[|out| - 1].start
    ensures forall x :: Covers(w, x) <==> Covers(out, x) || r.Has(x)
  {
    var front, last := out[..|out| - 1], out[|out| - 1];
    var wide := last.(end := Max(last.end, r.end));
    assert out == front + [last];
    CoversExtend(front, last);
    CoversExtend(front, wide);
    front + [wide]
  }

  /** `merge`: the result is normal and denotes the same addresses. */
  method Merge(ranges: seq<Ipv4Range>) returns (out: seq<Ipv4Range>)
    requires Proper(ranges)
    ensures Normal(out)
    ensures forall x :: Covers(out, x) <==> Covers(ranges, x)
  {
    var sorted := SortByStart(ranges);
    out := [];
    for i := 0 to |sorted|
      invariant Normal(out)
      invariant out == [] <==> i == 0
      invariant out != [] ==> out[|out| - 1].start <= sorted[i - 1].start
      invariant forall x :: Covers(out, x) <==> Covers(sorted[..i], x)
    {
      var r := sorted[i];
      assert r in sorted;
      CoversExtend(sorted[..i], r);
      assert sorted[..i + 1] == sorted[..i] + [r];
      if out != [] && r.start <= out[|out| - 1].end + 1 {
        out := WidenLast(out, r);
      } else {
        CoversExtend(out, r);
        out := out + [r];
      }
    }
    assert sorted[..|sorted|] == sorted;
  }

  /** The two lists denote the same addresses. */
  ghost predicate SameCover(a: seq<Ipv4Range>, b: seq<Ipv4Range>) {
    forall x :: Covers(a, x) <==> Covers(b, x)
  }

  lemma FirstCovered(a: seq<Ipv4Range>)
    requires Proper(a) && a != []
    ensures Covers(a, a[0].start)
  {
    assert a[0].Has(a[0].start);
  }

  lemma EmptyCover(a: seq<Ipv4Range>, b: seq<Ipv4Range>)
    requires Proper(a) && SameCover(a, b) && b == []
    ensures a == []
  {
    if a != [] { FirstCovered(a); }
  }

  lemma TailCovers(a: seq<Ipv4Range>, x: int)
    requires Normal(a) && a != []
    ensures Covers(a[1..], x) <==> Covers(a, x) && x > a[0].end
  {
    assert a == [a[0]] + a[1..];
    CoversAppend([a[0]], a[1..], x);
    CoversOne(a[0], x);
    if Covers(a[1..], x) {
      var r :| r in a[1..] && r.Has(x);
      assert a[0].end < r.start;
    }
  }

  /** Two normal lists that denote the same addresses are the same list. */
  lemma {:induction false} NormalFormUnique(a: seq<Ipv4Range>, b: seq<Ipv4Range>)
    requires Normal(a) && Normal(b) && SameCover(a, b)
    ensures a == b
  {
    if b == [] {
      EmptyCover(a, b);
    } else if a == [] {
      EmptyCover(b, a);
    } else {
      FirstRangeBelow(a, b);
      FirstRangeBelow(b, a);
      TailsCoverSame(a, b);
      NormalTail(a);
      NormalTail(b);
      NormalFormUnique(a[1..], b[1..]);
      assert a == [a[0]] + a[1..] && b == [b[0]] + b[1..];
    }
  }

  lemma TailsCoverSame(a: seq<Ipv4Range>, b: seq<Ipv4Range>)
    requires Normal(a) && Normal(b) && a != [] && b != [] && a[0].end == b[0].end && SameCover(a, b)
    ensures SameCover(a[1..], b[1..])
  {
    forall x ensures Covers(a[1..], x) <==> Covers(b[1..], x) {
      TailCovers(a, x);
      TailCovers(b, x);
    }
  }

  lemma NormalTail(a: seq<Ipv4Range>)
    requires Normal(a) && a != []
    ensures Normal(a[1..])
  {
  }

  /** The first range of a normal list is the first maximal run of its addresses. */
  lemma FirstRangeBelow(a: seq<Ipv4Range>, b: seq<Ipv4Range>)
    requires Normal(a) && Normal(b) && a != [] && b != [] && SameCover(a, b)
    ensures a[0].start >= b[0].start
    ensures a[0].start == b[0].start ==> a[0].end >= b[0].end
  {
    assert a[0].Has(a[0].start) && Covers(a, a[0].start);
    assert Covers(b, a[0].start);
    var r :| r in b && r.Has(a[0].start);
    assert b[0].start <= r.start;
    var x := a[0].end + 1;
    assert !Covers(a, x) by {
      forall t | t in a ensures !t.Has(x) {
        var i :| 0 <= i < |a| && a[i] == t;
      }
    }
    assert b[0].Has(x) ==> Covers(b, x);
  }

  /** `out` is `before` plus what the excludes leave of `[lo, hi)`. */
  ghost predicate Carved(out: seq<Ipv4Range>, before: seq<Ipv4Range>, excludes: seq<Ipv4Range>, lo: int, hi: int) {
    forall x :: Covers(out, x) <==> Covers(before, x) || (lo <= x < hi && !Covers(excludes, x))
  }

  /** Push a stretch no exclude touches. */
  method PushPiece(
      out: seq<Ipv4Range>, start: u32, end: u32, ghost before: seq<Ipv4Range>, ghost excludes: seq<Ipv4Range>,
      ghost lo: int, ghost k: nat)
    returns (longer: seq<Ipv4Range>)
    requires Normal(excludes) && k <= |excludes| && lo <= start <= end
    requires forall t | 0 <= t < k :: excludes[t].end < start
    requires k < |excludes| ==> end < excludes[k].start
    requires Normal(out) && (out != [] ==> out[|out| - 1].end + 1 < start)
    requires Carved(out, before, excludes, lo, start)
    ensures Normal(longer) && longer != [] && longer[|longer| - 1].end == end
    ensures Carved(longer, before, excludes, lo, end + 1)
  {
    CoversExtend(out, Ipv4Range(start, end));
    NotExcluded(excludes, k, start, end);
    longer := out + [Ipv4Range(start, end)];
  }

  /** Passing over a stretch inside an exclude. */
  lemma CarveDrop(
      out: seq<Ipv4Range>, before: seq<Ipv4Range>, excludes: seq<Ipv4Range>, lo: int, k: nat, from: int, to: int)
    requires k < |excludes| && excludes[k].start <= from && to <= excludes[k].end + 1
    requires Carved(out, before, excludes, lo, from)
    ensures from <= to ==> Carved(out, before, excludes, lo, to)
  {
    var ex := excludes[k];
    assert ex in excludes;
    forall x | from <= x < to ensures Covers(excludes, x) { assert ex.Has(x); }
  }

  /** One turn of the inner loop of `subtract`: the stretch up to an exclude stays, the exclude goes. */
  method PassExclude(
      out: seq<Ipv4Range>, cur: int, end: int, excludes: seq<Ipv4Range>, k: nat, ghost before: seq<Ipv4Range>,
      ghost lo: int)
    returns (longer: seq<Ipv4Range>, next: int)
    requires Normal(excludes) && k < |excludes| && excludes[k].start <= end
    requires 0 <= lo <= cur <= end <= U32_MAX && forall t | 0 <= t < k :: excludes[t].end < cur
    requires Normal(out) && (out != [] ==> out[|out| - 1].end + 1 < cur)
    requires Carved(out, before, excludes, lo, cur)
    ensures next == Max(cur, excludes[k].end + 1)
    ensures Normal(longer) && (longer != [] ==> longer[|longer| - 1].end + 1 < next && longer[|longer| - 1].end <= end)
    ensures Carved(longer, before, excludes, lo, Min(next, end + 1))
  {
    var ex := excludes[k];
    assert ex in excludes;
    longer := out;
    if ex.start > cur {
      longer := PushPiece(out, cur, ex.start - 1, before, excludes, lo, k);
    }
    CarveDrop(longer, before, excludes, lo, k, Max(cur, ex.start), Min(ex.end, end) + 1);
    next := Max(cur, ex.end + 1);
  }

  /** The inner loop of `subtract`: what the excludes from `k` on leave of one include. */
  method SubtractOne(inc: Ipv4Range, excludes: seq<Ipv4Range>, j: nat, before: seq<Ipv4Range>)
    returns (out: seq<Ipv4Range>)
    requires inc.start <= inc.end && Normal(excludes) && Normal(before)
    requires j <= |excludes| && forall t | 0 <= t < j :: excludes[t].end < inc.start
    requires before != [] ==> before[|before| - 1].end + 1 < inc.start
    ensures Normal(out)
    ensures out != [] ==> out[|out| - 1].end <= inc.end
    ensures Carved(out, before, excludes, inc.start, inc.end + 1)
  {
    out := before;
    var cur: int := inc.start;
    var end: int := inc.end;
    var k := j;
    while k < |excludes| && excludes[k].start <= end
      invariant j <= k <= |excludes|
      invariant inc.start <= cur <= end
      invariant forall t | 0 <= t < k :: excludes[t].end < cur
      invariant Normal(out) && (out != [] ==> out[|out| - 1].end + 1 < cur)
      invariant Carved(out, before, excludes, inc.start, cur)
    {
      out, cur := PassExclude(out, cur, end, excludes, k, before, inc.start);
      if cur > end {
        return;
      }
      k := k + 1;
    }
    out := PushPiece(out, cur, end, before, excludes, inc.start, k);
  }

  /** `subtract`: exact set difference, again in normal form, in spite of the cursor shared between includes. */
  method Subtract(includes: seq<Ipv4Range>, excludes: seq<Ipv4Range>) returns (out: seq<Ipv4Range>)
    requires Normal(includes) && Normal(excludes)
    ensures Normal(out)
    ensures forall x :: Covers(out, x) <==> Covers(includes, x) && !Covers(excludes, x)
  {
    out := [];
    var j := 0;
    for i := 0 to |includes|
      invariant Normal(out)
      invariant 0 <= j <= |excludes|
      invariant forall t | 0 <= t < j :: i > 0 && excludes[t].end < includes[i - 1].start
      invariant out != [] ==> i > 0 && out[|out| - 1].end <= includes[i - 1].end
      invariant forall x :: Covers(out, x) <==> Covers(includes[..i], x) && !Covers(excludes, x)
    {
      var inc := includes[i];
      assert inc in includes;
      while j < |excludes| && excludes[j].end < inc.start
        invariant 0 <= j <= |excludes|
        invariant forall t | 0 <= t < j :: excludes[t].end < inc.start
      {
        j := j + 1;
      }
      out := SubtractOne(inc, excludes, j, out);
      CoversExtend(includes[..i], inc);
      assert includes[..i + 1] == includes[..i] + [inc];
    }
    assert includes[..|includes|] == includes;
  }

  /** Between the excludes already passed and the next one nothing is excluded. */
  lemma NotExcluded(excludes: seq<Ipv4Range>, k: nat, lo: int, hi: int)
    requires Normal(excludes) && k <= |excludes|
    requires forall t | 0 <= t < k :: excludes[t].end < lo
    requires k < |excludes| ==> hi < excludes[k].start
    ensures forall x | lo <= x <= hi :: !Covers(excludes, x)
  {
    forall x | lo <= x <= hi ensures !Covers(excludes, x) {
      forall r | r in excludes ensures !r.Has(x) {
        var t :| 0 <= t < |excludes| && excludes[t] == r;
      }
    }
  }

  /* ----- address policy ----- */

  const RESERVED_CIDRS: seq<(u32, nat)> := [
    (0x0000_0000, 8), (0x6440_0000, 10), (0x7f00_0000, 8), (0xa9fe_0000, 16), (0xc000_0000, 24), (0xc000_0200, 24),
    (0xc058_6300, 24), (0xc612_0000, 15), (0xc633_6400, 24), (0xcb00_7100, 24), (0xe000_0000, 4), (0xf000_0000, 4)]

  const PRIVATE_CIDRS: seq<(u32, nat)> := [(0x0a00_0000, 8), (0xac10_0000, 12), (0xc0a8_0000, 16)]

  /** `cidr_range`: `base | (u32::MAX >> bits)` ends the block. */
  function CidrRange(base: u32, bits: nat): (r: Ipv4Range)
    ensures r.start == base <= r.end
  {
    var hostMask := U32_MAX / Pow2(bits);
    WordSizes();
    OrBound(base, hostMask, 32);
    Ipv4Range(base, Or(base, hostMask))
  }

  function CidrRanges(cidrs: seq<(u32, nat)>): (rs: seq<Ipv4Range>)
    ensures |rs| == |cidrs|
    ensures forall i | 0 <= i < |rs| :: rs[i] == CidrRange(cidrs[i].0, cidrs[i].1)
    ensures Proper(rs)
  {
    seq(|cidrs|, i requires 0 <= i < |cidrs| => CidrRange(cidrs[i].0, cidrs[i].1))
  }

  function DeniedRanges(allowPrivate: bool): (rs: seq<Ipv4Range>)
    ensures Proper(rs)
  {
    CidrRanges(RESERVED_CIDRS) + if allowPrivate then [] else CidrRanges(PRIVATE_CIDRS)
  }

  predicate IsAllowed(ip: u32, allowPrivate: bool) {
    !exists r :: r in DeniedRanges(allowPrivate) && r.start <= ip <= r.end
  }

  /** `filter_allowed` keeps exactly the addresses `is_allowed` accepts: those in no reserved block, or private one. */
  method FilterAllowed(ranges: seq<Ipv4Range>, allowPrivate: bool) returns (out: seq<Ipv4Range>)
    requires Normal(ranges)
    ensures Normal(out)
    ensures forall x: u32 :: Covers(out, x) <==> Covers(ranges, x) && IsAllowed(x, allowPrivate)
    ensures forall x: u32 :: Covers(out, x) <==> Covers(ranges, x) && !Reserved(x) && (allowPrivate || !Private(x))
  {
    var denied := Merge(DeniedRanges(allowPrivate));
    out := Subtract(ranges, denied);
    forall x: u32 ensures IsAllowed(x, allowPrivate) <==> !Reserved(x) && (allowPrivate || !Private(x)) {
      AllowedIff(x, allowPrivate);
    }
  }

  /** The reserved blocks, first and last address of each. */
  predicate Reserved(x: int) {
    ReservedLow(x) || ReservedHigh(x)
  }

  predicate ReservedLow(x: int) {
    || 0x0000_0000 <= x <= 0x00ff_ffff // 0.0.0.0/8
    || 0x6440_0000 <= x <= 0x647f_ffff // 100.64.0.0/10
    || 0x7f00_0000 <= x <= 0x7fff_ffff // 127.0.0.0/8
    || 0xa9fe_0000 <= x <= 0xa9fe_ffff // 169.254.0.0/16
    || 0xc000_0000 <= x <= 0xc000_00ff // 192.0.0.0/24
    || 0xc000_0200 <= x <= 0xc000_02ff // 192.0.2.0/24
  }

  predicate ReservedHigh(x: int) {
    || 0xc058_6300 <= x <= 0xc058_63ff // 192.88.99.0/24
    || 0xc612_0000 <= x <= 0xc613_ffff // 198.18.0.0/15
    || 0xc633_6400 <= x <= 0xc633_64ff // 198.51.100.0/24
    || 0xcb00_7100 <= x <= 0xcb00_71ff // 203.0.113.0/24
    || 0xe000_0000 <= x <= 0xefff_ffff // 224.0.0.0/4
    || 0xf000_0000 <= x <= 0xffff_ffff // 240.0.0.0/4
  }

  /** 10.0.0.0/8, 172.16.0.0/12 and 192.168.0.0/16. */
  predicate Private(x: int) {
    || 0x0a00_0000 <= x <= 0x0aff_ffff
    || 0xac10_0000 <= x <= 0xac1f_ffff
    || 0xc0a8_0000 <= x <= 0xc0a8_ffff
  }

  /** Every address outside those blocks is allowed, and no other. */
  lemma AllowedIff(x: u32, allowPrivate: bool)
    ensures IsAllowed(x, allowPrivate) <==> !Reserved(x) && (allowPrivate || !Private(x))
  {
    ReservedBlocks(x);
    PrivateBlocks(x);
    InBlocks(RESERVED_CIDRS, 0, x);
    InBlocks(PRIVATE_CIDRS, 0, x);
    InBoth(CidrRanges(RESERVED_CIDRS), CidrRanges(PRIVATE_CIDRS), x);
  }

  ghost predicate InSome(rs: seq<Ipv4Range>, x: int) {
    exists r :: r in rs && r.start <= x <= r.end
  }

  lemma InBoth(a: seq<Ipv4Range>, b: seq<Ipv4Range>, x: int)
    ensures InSome(a + b, x) <==> InSome(a, x) || InSome(b, x)
  {
  }

  /** Some block from position `i` on has the address. */
  predicate InBlock(cidrs: seq<(u32, nat)>, i: nat, x: int)
    decreases |cidrs| - i
  {
    i < |cidrs| && (CidrRange(cidrs[i].0, cidrs[i].1).Has(x) || InBlock(cidrs, i + 1, x))
  }

  lemma {:induction false} InBlocks(cidrs: seq<(u32, nat)>, i: nat, x: int)
    requires i <= |cidrs|
    ensures InBlock(cidrs, i, x) <==> InSome(CidrRanges(cidrs)[i..], x)
    decreases |cidrs| - i
  {
    var rs := CidrRanges(cidrs);
    if i < |cidrs| {
      InBlocks(cidrs, i + 1, x);
      assert rs[i..] == [rs[i]] + rs[i + 1..];
    }
  }

  lemma BlockStep(cidrs: seq<(u32, nat)>, i: nat, base: u32, bits: nat, size: nat, x: int)
    requires i < |cidrs| && cidrs[i] == (base, bits)
    requires bits <= 32 && size == Pow2(32 - bits) && base % size == 0
    ensures InBlock(cidrs, i, x) <==> base <= x <= base + size - 1 || InBlock(cidrs, i + 1, x)
  {
    CidrRangeIs(base, bits, size);
  }

  /** The block of `bits` leading bits around an aligned base: the addresses with the same leading bits. */
  lemma CidrRangeHas(base: u32, bits: nat, x: u32)
    requires bits <= 32 && base % Pow2(32 - bits) == 0
    ensures CidrRange(base, bits).Has(x) <==> x / Pow2(32 - bits) == base / Pow2(32 - bits)
  {
    var size := Pow2(32 - bits);
    CidrRangeIs(base, bits, size);
    SameQuotient(base, x, size);
  }

  lemma SameQuotient(base: nat, x: nat, size: nat)
    requires size > 0 && base % size == 0
    ensures base <= x <= base + size - 1 <==> x / size == base / size
  {
    var q := base / size;
    if base <= x <= base + size - 1 { ModUnique(x, size, q, x - base); }
    if x / size == q { assert x == size * q + x % size; }
  }

  lemma CidrRangeIs(base: u32, bits: nat, size: nat)
    requires bits <= 32 && size == Pow2(32 - bits) && base % size == 0
    ensures CidrRange(base, bits).end == base + size - 1
  {
    WordSizes();
    Pow2Add(32 - bits, bits);
    HostMask(size, Pow2(bits));
    OrAligned(base, size, 32 - bits);
  }

  lemma OrAligned(base: nat, size: nat, k: nat)
    requires size == Pow2(k) && base % size == 0
    ensures Or(base, size - 1) == base + size - 1
  {
    var q := base / size;
    assert base == q * size;
    OrShifted(q, size - 1, k);
  }

  lemma HostMask(size: nat, blocks: nat)
    requires blocks > 0 && size > 0 && size * blocks == 0x1_0000_0000
    ensures U32_MAX / blocks == size - 1
  {
    assert U32_MAX == blocks * (size - 1) + (blocks - 1);
    ModUnique(U32_MAX, blocks, size - 1, blocks - 1);
  }

  lemma BlockSizes()
    ensures Pow2(8) == 0x100 && Pow2(16) == 0x1_0000 && Pow2(17) == 0x2_0000 && Pow2(20) == 0x10_0000
    ensures Pow2(22) == 0x40_0000 && Pow2(24) == 0x100_0000 && Pow2(28) == 0x1000_0000
  {
    Pow2OfBytes(1);
    Pow2OfBytes(2);
    Pow2OfBytes(3);
    assert Pow2(20) == 0x10 * Pow2(16) by { assert Pow2(18) == 4 * Pow2(16); }
    assert Pow2(22) == 4 * Pow2(20);
    assert Pow2(28) == 0x10 * Pow2(24) by { assert Pow2(26) == 4 * Pow2(24); }
  }

  lemma ReservedBlocks(x: int)
    ensures InBlock(RESERVED_CIDRS, 0, x) <==> Reserved(x)
  {
    LowBlocks(x);
    HighBlocks(x);
  }

  lemma LowBlocks(x: int)
    ensures InBlock(RESERVED_CIDRS, 0, x) <==> ReservedLow(x) || InBlock(RESERVED_CIDRS, 6, x)
  {
    FirstBlocks(RESERVED_CIDRS, x);
    NextBlocks(RESERVED_CIDRS, x);
  }

  lemma NextBlocks(cidrs: seq<(u32, nat)>, x: int)
    requires |cidrs| >= 6 && cidrs[3] == (0xa9fe_0000, 16)
    requires cidrs[4] == (0xc000_0000, 24) && cidrs[5] == (0xc000_0200, 24)
    ensures InBlock(cidrs, 3, x) <==>
      || 0xa9fe_0000 <= x <= 0xa9fe_ffff
      || 0xc000_0000 <= x <= 0xc000_00ff
      || 0xc000_0200 <= x <= 0xc000_02ff
      || InBlock(cidrs, 6, x)
  {
    SixteenBits(cidrs, 3, 0xa9fe_0000, x);
    TwentyFourBits(cidrs, 4, 0xc000_0000, x);
    TwentyFourBits(cidrs, 5, 0xc000_0200, x);
  }

  lemma SixteenBits(cidrs: seq<(u32, nat)>, i: nat, base: u32, x: int)
    requires i < |cidrs| && cidrs[i] == (base, 16) && base % 0x1_0000 == 0
    ensures InBlock(cidrs, i, x) <==> base <= x <= base + 0xffff || InBlock(cidrs, i + 1, x)
  {
    BlockSizes();
    BlockStep(cidrs, i, base, 16, 0x1_0000, x);
  }

  lemma TwentyFourBits(cidrs: seq<(u32, nat)>, i: nat, base: u32, x: int)
    requires i < |cidrs| && cidrs[i] == (base, 24) && base % 0x100 == 0
    ensures InBlock(cidrs, i, x) <==> base <= x <= base + 0xff || InBlock(cidrs, i + 1, x)
  {
    BlockSizes();
    BlockStep(cidrs, i, base, 24, 0x100, x);
  }

  lemma FirstBlocks(cidrs: seq<(u32, nat)>, x: int)
    requires |cidrs| >= 3 && cidrs[0] == (0, 8) && cidrs[1] == (0x6440_0000, 10) && cidrs[2] == (0x7f00_0000, 8)
    ensures InBlock(cidrs, 0, x) <==>
      || 0 <= x <= 0x00ff_ffff
      || 0x6440_0000 <= x <= 0x647f_ffff
      || 0x7f00_0000 <= x <= 0x7fff_ffff
      || InBlock(cidrs, 3, x)
  {
    EightBits(cidrs, 0, 0x0000_0000, x);
    TenBits(cidrs, 1, 0x6440_0000, x);
    EightBits(cidrs, 2, 0x7f00_0000, x);
  }

  lemma EightBits(cidrs: seq<(u32, nat)>, i: nat, base: u32, x: int)
    requires i < |cidrs| && cidrs[i] == (base, 8) && base % 0x100_0000 == 0
    ensures InBlock(cidrs, i, x) <==> base <= x <= base + 0xff_ffff || InBlock(cidrs, i + 1, x)
  {
    BlockSizes();
    BlockStep(cidrs, i, base, 8, 0x100_0000, x);
  }

  lemma TenBits(cidrs: seq<(u32, nat)>, i: nat, base: u32, x: int)
    requires i < |cidrs| && cidrs[i] == (base, 10) && base % 0x40_0000 == 0
    ensures InBlock(cidrs, i, x) <==> base <= x <= base + 0x3f_ffff || InBlock(cidrs, i + 1, x)
  {
    BlockSizes();
    BlockStep(cidrs, i, base, 10, 0x40_0000, x);
  }

  lemma HighBlocks(x: int)
    ensures InBlock(RESERVED_CIDRS, 6, x) <==> ReservedHigh(x)
  {
    BlockSizes();
    BlockStep(RESERVED_CIDRS, 6, 0xc058_6300, 24, 0x100, x);
    BlockStep(RESERVED_CIDRS, 7, 0xc612_0000, 15, 0x2_0000, x);
    BlockStep(RESERVED_CIDRS, 8, 0xc633_6400, 24, 0x100, x);
    BlockStep(RESERVED_CIDRS, 9, 0xcb00_7100, 24, 0x100, x);
    BlockStep(RESERVED_CIDRS, 10, 0xe000_0000, 4, 0x1000_0000, x);
    BlockStep(RESERVED_CIDRS, 11, 0xf000_0000, 4, 0x1000_0000, x);
  }

  lemma PrivateBlocks(x: int)
    ensures InBlock(PRIVATE_CIDRS, 0, x) <==> Private(x)
  {
    BlockSizes();
    BlockStep(PRIVATE_CIDRS, 0, 0x0a00_0000, 8, 0x100_0000, x);
    BlockStep(PRIVATE_CIDRS, 1, 0xac10_0000, 12, 0x10_0000, x);
    BlockStep(PRIVATE_CIDRS, 2, 0xc0a8_0000, 16, 0x1_0000, x);
  }

  /* ----- target files ----- */

  /** One line of a target file: a bare address, or an address with a prefix length. */
  datatype Entry = Address(ip: u32) | Cidr(ip: u32, prefix: nat)

  /** The block an entry names. */
  function EntryRange(e: Entry): (r: Result<Ipv4Range, string>)
    ensures r.Ok? <==> e.Address? || e.prefix <= 32
    ensures r.Ok? ==> r.value.Has(e.ip)
  {
    match e
    case Address(ip) => Ok(Ipv4Range(ip, ip))
    case Cidr(ip, prefix) =>
      if prefix > 32 then Err("IPv4 prefix must be <= 32") else
      WordSizes();
      Pow2Add(32 - prefix, prefix);
      Ok(BlockOf(ip, Pow2(32 - prefix), Pow2(prefix)))
  }

  /** The aligned block of `size` addresses around `ip`, out of `blocks` that make up the address space. */
  function BlockOf(ip: u32, size: nat, blocks: nat): (r: Ipv4Range)
    requires size > 0 && size * blocks == 0x1_0000_0000
    ensures r.Has(ip)
  {
    var q := ip / size;
    assert q >= blocks ==> q * size >= blocks * size;
    assert q + 1 <= blocks ==> (q + 1) * size <= blocks * size;
    Ipv4Range(q * size, q * size + size - 1)
  }

  /** An entry with a prefix names the addresses that share that many leading bits with it, aligned or not. */
  lemma CidrNames(ip: u32, prefix: nat, x: u32)
    ensures Names(Cidr(ip, prefix), x) <==> prefix <= 32 && x / Pow2(32 - prefix) == ip / Pow2(32 - prefix)
  {
    if prefix <= 32 {
      var size, r := Pow2(32 - prefix), EntryRange(Cidr(ip, prefix)).value;
      WordSizes();
      Pow2Add(32 - prefix, prefix);
      BlockQuotient(ip, x, size);
    }
  }

  lemma BlockQuotient(ip: nat, x: nat, size: nat)
    requires size > 0
    ensures ip / size * size <= x <= ip / size * size + size - 1 <==> x / size == ip / size
  {
    var q := ip / size;
    if q * size <= x <= q * size + size - 1 { ModUnique(x, size, q, x - q * size); }
    if x / size == q { assert x == size * q + x % size; }
  }

  function TrimLastAddress(r: Ipv4Range): seq<Ipv4Range>
  {
    if r.start < r.end then [Ipv4Range(r.start, r.end - 1)] else []
  }

  /** `parse_entry_targets`: blocks of /30 and shorter prefixes lose their last address. */
  function EntryTargets(e: Entry): (r: Result<seq<Ipv4Range>, string>)
    ensures r.Ok? ==> Proper(r.value)
  {
    match EntryRange(e)
    case Err(m) => Err(m)
    case Ok(range) => if e.Cidr? && e.prefix <= 30 then Ok(TrimLastAddress(range)) else Ok([range])
  }

  predicate WellFormed(es: seq<Entry>) {
    forall e | e in es :: EntryRange(e).Ok?
  }

  /** The entry names the address, trimmed or not. */
  predicate Names(e: Entry, x: int) {
    EntryRange(e).Ok? && EntryRange(e).value.Has(x)
  }

  /** The address is the one the trimming takes out of this entry. */
  predicate Trims(e: Entry, x: int) {
    EntryRange(e).Ok? && e.Cidr? && e.prefix <= 30 && x == EntryRange(e).value.end
  }

  lemma EntryTargetsCover(e: Entry, x: int)
    requires EntryRange(e).Ok?
    ensures Covers(EntryTargets(e).value, x) <==> Names(e, x) && !Trims(e, x)
  {
    var r := EntryRange(e).value;
    CoversOne(r, x);
    if r.start < r.end { CoversOne(Ipv4Range(r.start, r.end - 1), x); }
    if e.Cidr? && e.prefix <= 30 {
      assert !Covers([], x);
    }
  }

  ghost predicate Listed(es: seq<Entry>, x: int) {
    exists e :: e in es && Names(e, x) && !Trims(e, x)
  }

  /** `parse_files` over the entries of all files. */
  method ParseEntries(es: seq<Entry>) returns (r: Result<seq<Ipv4Range>, string>)
    ensures r.Ok? <==> WellFormed(es)
    ensures r.Ok? ==> Normal(r.value) && forall x :: Covers(r.value, x) <==> Listed(es, x)
  {
    var ranges: seq<Ipv4Range> := [];
    for i := 0 to |es|
      invariant WellFormed(es[..i]) && Proper(ranges)
      invariant forall x :: Covers(ranges, x) <==> Listed(es[..i], x)
    {
      assert es[..i + 1] == es[..i] + [es[i]];
      match EntryTargets(es[i]) {
        case Err(m) =>
          assert es[i] in es;
          return Err(m);
        case Ok(more) =>
          forall x ensures Covers(ranges + more, x) <==> Listed(es[..i + 1], x) {
            CoversAppend(ranges, more, x);
            EntryTargetsCover(es[i], x);
            ListedAppend(es[..i], es[i], x);
          }
          ranges := ranges + more;
      }
    }
    assert es[..|es|] == es;
    var out := Merge(ranges);
    return Ok(out);
  }

  lemma ListedAppend(es: seq<Entry>, e: Entry, x: int)
    ensures Listed(es + [e], x) <==> Listed(es, x) || (Names(e, x) && !Trims(e, x))
  {
    assert e in es + [e];
    if Listed(es, x) { var f :| f in es && Names(f, x) && !Trims(f, x); assert f in es + [e]; }
  }

  /** The target set of a scan: includes, minus excludes, minus the denied blocks, in normal form. */
  method PrepareRanges(includes: seq<Entry>, excludes: seq<Entry>, allowPrivate: bool)
    returns (r: Result<seq<Ipv4Range>, string>)
    ensures r.Ok? <==> WellFormed(includes) && WellFormed(excludes)
    ensures r.Ok? ==> Normal(r.value)
    ensures r.Ok? ==> forall x: u32 :: Covers(r.value, x) <==> Targeted(includes, excludes, allowPrivate, x)
    ensures r.Ok? ==>
      ((forall x: u32 | NamedBy(excludes, x) :: !Covers(r.value, x))
       <==> forall e | e in excludes :: LastIsHarmless(includes, excludes, allowPrivate, e))
  {
    var inc := ParseEntries(includes);
    if inc.Err? { return inc; }
    var exc := ParseEntries(excludes);
    if exc.Err? { return exc; }
    var kept := Subtract(inc.value, exc.value);
    var out := FilterAllowed(kept, allowPrivate);
    ExcludesWinInResult(out, includes, excludes, allowPrivate);
    return Ok(out);
  }

  lemma ExcludesWinInResult(rs: seq<Ipv4Range>, includes: seq<Entry>, excludes: seq<Entry>, allowPrivate: bool)
    requires forall x: u32 :: Covers(rs, x) <==> Targeted(includes, excludes, allowPrivate, x)
    ensures (forall x: u32 | NamedBy(excludes, x) :: !Covers(rs, x))
       <==> forall e | e in excludes :: LastIsHarmless(includes, excludes, allowPrivate, e)
  {
    ExcludesWinIff(includes, excludes, allowPrivate);
    assert ExcludesWin(includes, excludes, allowPrivate) <==> forall x: u32 | NamedBy(excludes, x) :: !Covers(rs, x);
  }

  ghost predicate Targeted(includes: seq<Entry>, excludes: seq<Entry>, allowPrivate: bool, x: u32) {
    Listed(includes, x) && !Listed(excludes, x) && IsAllowed(x, allowPrivate)
  }

  ghost predicate NamedBy(es: seq<Entry>, x: int) {
    exists e :: e in es && Names(e, x)
  }

  /** No address an exclude names is a target. */
  ghost predicate ExcludesWin(includes: seq<Entry>, excludes: seq<Entry>, allowPrivate: bool) {
    forall x: u32 | NamedBy(excludes, x) :: !Targeted(includes, excludes, allowPrivate, x)
  }

  /** The last address of an exclude block is no include, or denied, or excluded by another entry. */
  ghost predicate LastIsHarmless(includes: seq<Entry>, excludes: seq<Entry>, allowPrivate: bool, e: Entry) {
    e.Cidr? && e.prefix <= 30 && EntryRange(e).Ok? ==>
      var last := EntryRange(e).value.end;
      !Listed(includes, last) || !IsAllowed(last, allowPrivate) || Listed(excludes, last)
  }

  /** An exclude that names a target is a block whose trimmed last address it is. */
  lemma NamedTargetIsLast(includes: seq<Entry>, excludes: seq<Entry>, allowPrivate: bool, e: Entry, x: u32)
    requires e in excludes && Names(e, x) && Targeted(includes, excludes, allowPrivate, x)
    ensures e.Cidr? && e.prefix <= 30 && EntryRange(e).Ok? && x == EntryRange(e).value.end
    ensures !LastIsHarmless(includes, excludes, allowPrivate, e)
  {
    assert !Listed(excludes, x);
    assert Trims(e, x);
  }

  /**
   Exclude files are trimmed like include files, so excludes do not always win.  They do iff the last address
   of each of their blocks of /30 or shorter is harmless, which the files show before anything is scanned.
   */
  lemma ExcludesWinIff(includes: seq<Entry>, excludes: seq<Entry>, allowPrivate: bool)
    ensures ExcludesWin(includes, excludes, allowPrivate)
       <==> forall e | e in excludes :: LastIsHarmless(includes, excludes, allowPrivate, e)
  {
    if e :| e in excludes && !LastIsHarmless(includes, excludes, allowPrivate, e) {
      var last := EntryRange(e).value.end;
      assert Names(e, last) && NamedBy(excludes, last);
      assert Targeted(includes, excludes, allowPrivate, last);
    }
    if x: u32 :| NamedBy(excludes, x) && Targeted(includes, excludes, allowPrivate, x) {
      var e :| e in excludes && Names(e, x);
      NamedTargetIsLast(includes, excludes, allowPrivate, e, x);
    }
  }

  /** 8.8.8.255 listed on its own survives the exclude 8.8.8.0/24. */
  lemma ExcludeLoses()
    ensures NamedBy([Cidr(0x0808_0800, 24)], 0x0808_08ff)
    ensures Targeted([Address(0x0808_08ff)], [Cidr(0x0808_0800, 24)], false, 0x0808_08ff)
  {
    WordSizes();
    var e := Cidr(0x0808_0800, 24);
    assert EntryRange(e) == Ok(Ipv4Range(0x0808_0800, 0x0808_08ff));
    assert Names(e, 0x0808_08ff) && e in [e];
    var a := Address(0x0808_08ff);
    assert a in [a] && Names(a, 0x0808_08ff) && !Trims(a, 0x0808_08ff);
    AllowedIff(0x0808_08ff, false);
  }
}
