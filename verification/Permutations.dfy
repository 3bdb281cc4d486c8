/**
 The keyed small-domain permutation: a balanced six-round Feistel network over
 `2 * half` bits, restricted to `[0, n)` by cycle walking.  The keyed hash behind the
 round function is an arbitrary function of (round, right half).
 */
module Permutations {
  import opened Words
  import opened Bits
  import opened CycleWalks

  const FEISTEL_ROUNDS: nat := 6

  type RoundHash = (nat, nat) -> nat

  datatype Block = Block(l: nat, r: nat)

  datatype Permutation = Permutation(n: nat, bits: nat, half: nat, mask: nat, hash: RoundHash) {
    ghost predicate Valid() {
      && bits == half + half
      && mask + 1 == Pow2(half)
      && 0 < n <= Domain()
    }

    /** The network permutes `[0, 2^bits)`. */
    function Domain(): nat { Pow2(bits) }

    /** The round function: the keyed hash, masked to half a block. */
    function Round(right: nat, round: nat): nat { And(hash(round, right), mask) }

    /** One Feistel round. */
    function Step(b: Block, round: nat): Block {
      Block(b.r, And(Xor(b.l, Round(b.r, round)), mask))
    }

    function Rounds(b: Block, from: nat): Block
      requires from <= FEISTEL_ROUNDS
      decreases FEISTEL_ROUNDS - from
    {
      if from == FEISTEL_ROUNDS then b else Rounds(Step(b, from), from + 1)
    }

    /** `x >> half` and `x & mask`. */
    function Split(x: nat): Block { Block(x / (mask + 1), And(x, mask)) }

    /** `(l << half) | r`. */
    function Join(b: Block): nat { Or(b.l * (mask + 1), b.r) }

    function Full(x: nat): nat { Join(Rounds(Split(x), 0)) }

    /** The network as a function value. */
    function Network(): nat -> nat { (x: nat) => Full(x) }

    /** The value `get` returns. */
    ghost function At(index: nat): (y: nat) {
      if n == 1 then 0 else Walk(Network(), n, index, Domain())
    }

    ghost function Picks(): nat -> nat { (x: nat) => At(x) }
  }

  /** `Permutation::new`: the domain is rounded up to an even number of bits. */
  function New(n: u64, hash: RoundHash): Result<Permutation, string> {
    if n == 0 then Err("permutation domain cannot be empty") else
    var needed := Max(BitLength(n - 1), 1);
    var bits := if needed % 2 == 0 then needed else needed + 1;
    if bits > 64 then Err("domain too large") else Ok(Permutation(n, bits, bits / 2, Pow2(bits / 2) - 1, hash))
  }

  lemma U64BitLength(n: u64)
    ensures BitLength(n) <= 64
  {
    if BitLength(n) > 64 {
      Pow2Monotone(64, BitLength(n) - 1);
      WordSizes();
      assert false;
    }
  }

  /** Every non-empty 64-bit domain is accepted, and the network's domain is at most `4 * (n - 1)`. */
  lemma NewDomain(n: u64, hash: RoundHash)
    ensures New(n, hash).Ok? <==> n > 0
    ensures n > 0 ==> New(n, hash).value.Valid() && New(n, hash).value.n == n && New(n, hash).value.hash == hash
    ensures n > 1 ==> New(n, hash).value.Domain() <= 4 * (n - 1)
  {
    if n > 0 {
      var needed := Max(BitLength(n - 1), 1);
      U64BitLength(n - 1);
      var bits := if needed % 2 == 0 then needed else needed + 1;
      Pow2Monotone(BitLength(n - 1), bits);
      assert bits / 2 + bits / 2 == bits;
      if n > 1 {
        Pow2Monotone(bits - 2, needed - 1);
      }
    }
  }

  /** Three rounds from `round` on take the halves `a`, `b` to `d`, `e` by way of `c`. */
  ghost predicate ThreeRounds(hash: RoundHash, m: nat, round: nat, a: nat, b: nat, c: nat, d: nat, e: nat)
    requires m > 0
  {
    && c == Xor(a, hash(round, b) % m)
    && d == Xor(b, hash(round + 1, c) % m)
    && e == Xor(c, hash(round + 2, d) % m)
  }

  /**
   The network written out: with the halves of `x` as the first two terms, each further term is the one before
   the last XOR the last hashed with the number of the round; six rounds, and the last two terms are the result.
   */
  ghost predicate SixRounds(hash: RoundHash, m: nat, x: nat, y: nat, h: seq<nat>)
    requires m > 0
  {
    && |h| == 8 && h[0] == x / m && h[1] == x % m
    && ThreeRounds(hash, m, 0, h[0], h[1], h[2], h[3], h[4])
    && ThreeRounds(hash, m, 3, h[3], h[4], h[5], h[6], h[7])
    && y == h[6] * m + h[7]
  }

  /** Every value of the network comes about that way, from the hash the permutation was given. */
  lemma FullIsSixRounds(p: Permutation, x: nat) returns (h: seq<nat>)
    requires p.Valid() && x < p.Domain()
    ensures SixRounds(p.hash, Pow2(p.half), x, p.Full(x), h)
  {
    SplitJoin(p, x);
    var b := p.Split(x);
    AndMask(x, p.half);
    var t2, c := ThreeForth(p, b, 0);
    var t5, d := ThreeForth(p, c, 3);
    JoinSum(p, d);
    h := TwiceThree(p.hash, Pow2(p.half), x, p.Full(x), b, t2, c, t5, d);
  }

  lemma TwiceThree(hash: RoundHash, m: nat, x: nat, y: nat, b: Block, t: nat, c: Block, u: nat, d: Block)
    returns (h: seq<nat>)
    requires m > 0 && b.l == x / m && b.r == x % m && y == d.l * m + d.r
    requires ThreeRounds(hash, m, 0, b.l, b.r, t, c.l, c.r) && ThreeRounds(hash, m, 3, c.l, c.r, u, d.l, d.r)
    ensures SixRounds(hash, m, x, y, h)
  {
    h := [b.l, b.r, t, c.l, c.r, u, d.l, d.r];
  }

  lemma ThreeForth(p: Permutation, b: Block, round: nat) returns (first: nat, d: Block)
    requires p.Valid() && InBlock(p, b) && round + 3 <= FEISTEL_ROUNDS
    ensures InBlock(p, d) && p.Rounds(b, round) == p.Rounds(d, round + 3)
    ensures ThreeRounds(p.hash, Pow2(p.half), round, b.l, b.r, first, d.l, d.r)
    ensures round + 3 == FEISTEL_ROUNDS ==> p.Rounds(b, round) == d
  {
    var c := StepForth(p, b, round);
    first := c.r;
    d := StepForth(p, c, round + 1);
    d := StepForth(p, d, round + 2);
  }

  lemma StepForth(p: Permutation, b: Block, round: nat) returns (c: Block)
    requires p.Valid() && InBlock(p, b) && round < FEISTEL_ROUNDS
    ensures InBlock(p, c) && p.Rounds(b, round) == p.Rounds(c, round + 1)
    ensures c.l == b.r && c.r == Xor(b.l, p.hash(round, b.r) % Pow2(p.half))
    ensures round + 1 == FEISTEL_ROUNDS ==> p.Rounds(b, round) == c
  {
    c := p.Step(b, round);
    StepInBlock(p, b, round);
    AndMask(p.hash(round, b.r), p.half);
  }

  lemma JoinSum(p: Permutation, b: Block)
    requires p.Valid() && InBlock(p, b)
    ensures p.Join(b) == b.l * Pow2(p.half) + b.r
  {
    OrShifted(b.l, b.r, p.half);
  }

  predicate InBlock(p: Permutation, b: Block) {
    b.l <= p.mask && b.r <= p.mask
  }

  lemma SplitJoin(p: Permutation, x: nat)
    requires p.Valid() && x < p.Domain()
    ensures InBlock(p, p.Split(x))
    ensures x == p.Split(x).l * (p.mask + 1) + p.Split(x).r
  {
    var m := p.mask + 1;
    Pow2Add(p.half, p.half);
    AndMask(x, p.half);
    DivBelow(x, m, m);
  }

  lemma DivBelow(x: nat, m: nat, k: nat)
    requires m > 0 && x < k * m
    ensures x / m < k
    ensures x == x / m * m + x % m
  {
    var q := x / m;
    assert q >= k ==> q * m >= k * m;
  }

  lemma StepInBlock(p: Permutation, b: Block, round: nat)
    requires p.Valid() && InBlock(p, b)
    ensures InBlock(p, p.Step(b, round))
    ensures p.Step(b, round) == Block(b.r, Xor(b.l, p.Round(b.r, round)))
  {
    AndMask(p.hash(round, b.r), p.half);
    XorBound(b.l, p.Round(b.r, round), p.half);
    MaskIdentity(Xor(b.l, p.Round(b.r, round)), p.half);
  }

  lemma MaskIdentity(x: nat, k: nat)
    requires x < Pow2(k)
    ensures And(x, Pow2(k) - 1) == x
  {
    AndMask(x, k);
    ModUnique(x, Pow2(k), 0, x);
  }

  lemma {:induction false} RoundsInBlock(p: Permutation, b: Block, from: nat)
    requires p.Valid() && InBlock(p, b) && from <= FEISTEL_ROUNDS
    ensures InBlock(p, p.Rounds(b, from))
    decreases FEISTEL_ROUNDS - from
  {
    if from < FEISTEL_ROUNDS {
      StepInBlock(p, b, from);
      RoundsInBlock(p, p.Step(b, from), from + 1);
    }
  }

  /** No choice of round function can make the network lose information. */
  lemma {:induction false} RoundsInjective(p: Permutation, b: Block, c: Block, from: nat)
    requires p.Valid() && InBlock(p, b) && InBlock(p, c) && from <= FEISTEL_ROUNDS
    requires p.Rounds(b, from) == p.Rounds(c, from)
    ensures b == c
    decreases FEISTEL_ROUNDS - from
  {
    if from < FEISTEL_ROUNDS {
      StepInBlock(p, b, from);
      StepInBlock(p, c, from);
      RoundsInjective(p, p.Step(b, from), p.Step(c, from), from + 1);
      XorCancel(b.l, c.l, p.Round(b.r, from));
    }
  }

  lemma PairBelow(l: nat, r: nat, m: nat)
    requires l < m && r < m
    ensures l * m + r < m * m
  {
    assert l * m <= (m - 1) * m;
  }

  lemma JoinInDomain(p: Permutation, b: Block)
    requires p.Valid() && InBlock(p, b)
    ensures p.Join(b) == b.l * (p.mask + 1) + b.r
    ensures p.Join(b) < p.Domain()
  {
    OrShifted(b.l, b.r, p.half);
    Pow2Add(p.half, p.half);
    PairBelow(b.l, b.r, p.mask + 1);
  }

  lemma JoinInjective(p: Permutation, b: Block, c: Block)
    requires p.Valid() && InBlock(p, b) && InBlock(p, c) && p.Join(b) == p.Join(c)
    ensures b == c
  {
    JoinInDomain(p, b);
    JoinInDomain(p, c);
    PairInjective(b.l, b.r, c.l, c.r, p.mask + 1);
  }

  lemma PairInjective(l: nat, r: nat, l': nat, r': nat, m: nat)
    requires r < m && r' < m && l * m + r == l' * m + r'
    ensures l == l' && r == r'
  {
    ModUnique(l * m + r, m, l, r);
    ModUnique(l * m + r, m, l', r');
  }

  lemma NetworkInjective(p: Permutation)
    requires p.Valid()
    ensures Injective(p.Network(), p.Domain())
  {
    forall x | 0 <= x < p.Domain() ensures p.Full(x) < p.Domain() {
      SplitJoin(p, x);
      RoundsInBlock(p, p.Split(x), 0);
      JoinInDomain(p, p.Rounds(p.Split(x), 0));
    }
    forall x, y | 0 <= x < y < p.Domain() ensures p.Full(x) != p.Full(y) {
      FullInjective(p, x, y);
    }
  }

  lemma FullInjective(p: Permutation, x: nat, y: nat)
    requires p.Valid() && x < p.Domain() && y < p.Domain()
    ensures p.Full(x) == p.Full(y) ==> x == y
  {
    SplitJoin(p, x);
    SplitJoin(p, y);
    RoundsInBlock(p, p.Split(x), 0);
    RoundsInBlock(p, p.Split(y), 0);
    if p.Full(x) == p.Full(y) {
      JoinInjective(p, p.Rounds(p.Split(x), 0), p.Rounds(p.Split(y), 0));
      RoundsInjective(p, p.Split(x), p.Split(y), 0);
    }
  }

  /** `full` is a bijection of `[0, 2^bits)` for every round function. */
  lemma FullBijective(p: Permutation)
    requires p.Valid()
    ensures Bijective(p.Network(), p.Domain())
  {
    NetworkInjective(p);
    InjectiveIsBijective(p.Network(), p.Domain());
  }

  /** `get` is a bijection of `[0, n)` for every round function. */
  lemma GetBijective(p: Permutation)
    requires p.Valid()
    ensures Bijective(p.Picks(), p.n)
  {
    if p.n == 1 {
      InjectiveIsBijective(p.Picks(), 1);
    } else {
      NetworkInjective(p);
      WalkBijective(p.Network(), p.n, p.Domain(), p.Picks());
    }
  }

  /** The order in which `get(0), get(1), ..` visits the domain. */
  ghost function Order(p: Permutation): (order: seq<nat>)
    requires p.Valid()
    ensures |order| == p.n
  {
    Listing(p.Picks(), p.n)
  }

  /** Every member of the domain is visited exactly once. */
  lemma OrderIsOrder(p: Permutation)
    requires p.Valid()
    ensures IsOrder(Order(p), p.n)
  {
    GetBijective(p);
    ListingIsOrder(p.Picks(), p.n);
  }

  /** The walk from any index stops within `2^bits - n + 1` applications of the network. */
  lemma WalkLength(p: Permutation, index: nat) returns (k: nat)
    requires p.Valid() && index < p.n && p.n > 1
    ensures ReturnsAfter(p.Network(), p.n, index, k) && k <= p.Domain() - p.n + 1
    ensures p.At(index) == Iterate(p.Network(), k, index)
  {
    NetworkInjective(p);
    k := WalkStops(p.Network(), p.n, p.Domain(), index);
  }

  /** `Permutation::full`, the loop over the six rounds. */
  method FullLoop(p: Permutation, x: nat) returns (y: nat)
    ensures y == p.Full(x)
  {
    var l: nat := x / (p.mask + 1);
    var r: nat := And(x, p.mask);
    for round := 0 to FEISTEL_ROUNDS
      invariant p.Rounds(Block(l, r), round) == p.Rounds(p.Split(x), 0)
    {
      l, r := r, And(Xor(l, p.Round(r, round)), p.mask);
    }
    return Or(l * (p.mask + 1), r);
  }

  /** `Permutation::get`, the cycle walk; at most `2^bits - n + 1` applications of the network. */
  method Get(p: Permutation, index: nat) returns (y: nat, ghost applications: nat)
    requires p.Valid() && index < p.n
    ensures y == p.At(index)
    ensures applications <= p.Domain() - p.n + 1
  {
    if p.n == 1 {
      return 0, 0;
    }
    ghost var k := WalkLength(p, index);
    WalkFrom(p.Network(), p.n, index, 0, k, k - 1);
    y := WalkLoop(p.Network(), p.n, index, k - 1);
    applications := k;
  }

  /** `get` reads the order off position by position. */
  method GetAt(p: Permutation, ghost order: seq<nat>, index: nat) returns (y: nat)
    requires p.Valid() && order == Order(p) && index < p.n
    ensures y == order[index]
  {
    ListingAt(p.Picks(), p.n, index);
    var value, _ := Get(p, index);
    return value;
  }

  /** The stretch of the order one task works through, read with `get` position by position. */
  method GetSlice(p: Permutation, ghost order: seq<nat>, start: nat, end: nat) returns (slice: seq<nat>)
    requires p.Valid() && order == Order(p) && start <= end <= p.n
    ensures slice == order[start..end]
  {
    slice := [];
    for i := start to end
      invariant slice == order[start..i]
    {
      var index := GetAt(p, order, i);
      slice := slice + [index];
    }
  }
}
