/**
 The token bucket, over exact reals, and the virtual-time limiter it amounts to.
 A bucket is summarised by its virtual time `last - tokens / rate`: the moment up to which
 everything charged so far has been paid for.
 */
module RateLimit {
  function RMax(a: real, b: real): real { if a >= b then a else b }
  function RMin(a: real, b: real): real { if a <= b then a else b }

  function Credit(tokens: real, elapsed: real, rate: real): real { tokens + elapsed * rate }

  function Shortfall(need: real, tokens: real, rate: real): real
    requires rate > 0.0
  {
    (need - tokens) / rate
  }

  datatype Bucket = Bucket(rate: real, capacity: real, tokens: real, last: real) {
    /** `burst` seconds of credit at most, never a debt. */
    predicate Valid(burst: real) {
      rate > 0.0 && burst > 0.0 && capacity == rate * burst && 0.0 <= tokens <= capacity
    }

    function Virtual(): real
      requires rate > 0.0
    {
      last - tokens / rate
    }

    /** Credit up to the accounted time, capped. */
    function Refill(now: real): Bucket {
      var accounted := RMax(now, last);
      Bucket(rate, capacity, RMin(Credit(tokens, accounted - last, rate), capacity), accounted)
    }

    /** Take `need` tokens, running ahead of the clock when they are short. */
    function Spend(need: real): Bucket
      requires rate > 0.0
    {
      if tokens >= need then Bucket(rate, capacity, tokens - need, last)
      else Bucket(rate, capacity, 0.0, last + Shortfall(need, tokens, rate))
    }

    /** Change the rate, keeping the fill ratio. */
    function Rescale(newRate: real, burst: real): Bucket {
      var ratio := if capacity > 0.0 then tokens / capacity else 0.0;
      Bucket(newRate, newRate * burst, RMin(newRate * burst * ratio, newRate * burst), last)
    }
  }

  /** An operation on the bucket, stamped with the caller's clock. */
  datatype Op = Consume(bytes: nat, now: real) | SetRate(rate: real, now: real)

  predicate OpOk(op: Op) {
    op.SetRate? ==> op.rate > 0.0
  }

  function Apply(b: Bucket, burst: real, op: Op): Bucket
    requires b.rate > 0.0
  {
    match op
    case Consume(bytes, now) => b.Refill(now).Spend(bytes as real)
    case SetRate(rate, now) => b.Refill(now).Rescale(rate, burst)
  }

  /** Seconds of sending an operation pays for. */
  function Cost(b: Bucket, op: Op): real
    requires b.rate > 0.0
  {
    match op case Consume(bytes, _) => bytes as real / b.rate case SetRate(_, _) => 0.0
  }

  class TokenBucket {
    var rate: real
    var capacity: real
    var tokens: real
    var last: real

    function State(): Bucket
      reads this
    {
      Bucket(rate, capacity, tokens, last)
    }

    constructor (bytesPerSecond: real, burst: real)
      requires bytesPerSecond > 0.0 && burst > 0.0
      ensures State() == NewBucket(bytesPerSecond, burst) && State().Valid(burst)
    {
      FreshBucket(bytesPerSecond, burst);
      rate := bytesPerSecond;
      capacity := bytesPerSecond * burst;
      tokens := bytesPerSecond * burst;
      last := 0.0;
    }

    /** `consume_at`; the wait runs from the requested time to the bucket's new time. */
    method ConsumeAt(bytes: nat, now: real) returns (wait: real)
      requires rate > 0.0
      modifies this
      ensures State() == Apply(old(State()), 0.0, Consume(bytes, now))
      ensures wait == last - now
      ensures rate == old(rate) && capacity == old(capacity)
    {
      var accounted := RMax(now, last);
      var elapsed := accounted - last;
      tokens := RMin(Credit(tokens, elapsed, rate), capacity);
      var need := bytes as real;
      if tokens >= need {
        tokens := tokens - need;
        last := accounted;
        wait := accounted - now;
      } else {
        var d := Shortfall(need, tokens, rate);
        tokens := 0.0;
        last := accounted + d;
        wait := last - now;
      }
    }

    method SetRateAt(bytesPerSecond: real, burst: real, now: real)
      requires rate > 0.0
      modifies this
      ensures State() == Apply(old(State()), burst, SetRate(bytesPerSecond, now))
      ensures rate == bytesPerSecond && capacity == bytesPerSecond * burst
    {
      var accounted := RMax(now, last);
      var elapsed := accounted - last;
      tokens := RMin(Credit(tokens, elapsed, rate), capacity);
      var fillRatio := if capacity > 0.0 then tokens / capacity else 0.0;
      rate := bytesPerSecond;
      capacity := bytesPerSecond * burst;
      tokens := RMin(capacity * fillRatio, capacity);
      last := accounted;
    }
  }

  /* ----- arithmetic ----- */

  lemma MulDiv(a: real, b: real)
    requires b != 0.0
    ensures a * b / b == a
  {
  }

  lemma DivMul(a: real, b: real)
    requires b != 0.0
    ensures a / b * b == a
  {
  }

  lemma MulOrder(a: real, b: real, c: real)
    requires c > 0.0
    ensures a <= b <==> a * c <= b * c
  {
  }

  lemma DivOrder(a: real, b: real, c: real)
    requires c > 0.0
    ensures a <= b <==> a / c <= b / c
  {
    DivMul(a, c);
    DivMul(b, c);
    MulOrder(a / c, b / c, c);
  }

  /** Credit for `e` seconds is worth `e` seconds more. */
  lemma CreditWorth(tokens: real, e: real, rate: real)
    requires rate > 0.0
    ensures Credit(tokens, e, rate) / rate == tokens / rate + e
    ensures e >= 0.0 ==> Credit(tokens, e, rate) >= tokens
  {
    DivMul(tokens, rate);
    MulOrder(0.0, e, rate);
    var worth := tokens / rate + e;
    assert worth * rate == Credit(tokens, e, rate);
    MulDiv(worth, rate);
  }

  lemma MinWorth(a: real, b: real, rate: real)
    requires rate > 0.0
    ensures RMin(a, b) / rate == RMin(a / rate, b / rate)
  {
    DivOrder(a, b, rate);
  }

  /* ----- one operation ----- */

  /** Refilling moves the virtual time up to `burst` behind the accounted time, if it lags. */
  lemma RefillVirtual(b: Bucket, burst: real, now: real)
    requires b.Valid(burst)
    ensures b.Refill(now).Valid(burst)
    ensures b.Refill(now).Virtual() == RMax(b.Virtual(), RMax(now, b.last) - burst)
  {
    var e := RMax(now, b.last) - b.last;
    CreditWorth(b.tokens, e, b.rate);
    MinWorth(Credit(b.tokens, e, b.rate), b.capacity, b.rate);
    CapacityWorth(b, burst);
    RefillArithmetic(b.last, e, b.tokens / b.rate, burst);
  }

  lemma RefillArithmetic(last: real, e: real, worth: real, burst: real)
    ensures last + e - RMin(worth + e, burst) == RMax(last - worth, last + e - burst)
  {
  }

  lemma CapacityWorth(b: Bucket, burst: real)
    requires b.Valid(burst)
    ensures b.capacity / b.rate == burst && b.capacity > 0.0
  {
    MulDiv(burst, b.rate);
    MulOrder(b.rate, 0.0, burst);
  }

  lemma SpendVirtual(b: Bucket, burst: real, need: real)
    requires b.Valid(burst) && need >= 0.0
    ensures b.Spend(need).Valid(burst)
    ensures b.Spend(need).Virtual() == b.Virtual() + need / b.rate
    ensures b.Spend(need).last == RMax(b.last, b.Spend(need).Virtual())
  {
    DivOrder(0.0, need - b.tokens, b.rate);
    DivOrder(0.0, b.tokens - need, b.rate);
    assert (b.tokens - need) / b.rate == b.tokens / b.rate - need / b.rate;
  }

  lemma RescaleVirtual(b: Bucket, burst: real, rate: real)
    requires b.Valid(burst) && rate > 0.0
    ensures b.Rescale(rate, burst).Valid(burst)
    ensures b.Rescale(rate, burst).Virtual() == b.Virtual()
  {
    CapacityWorth(b, burst);
    RescaleArithmetic(b.rate, rate, burst, b.tokens);
  }

  /** The fill ratio of a bucket carries its worth over to the new rate. */
  lemma RescaleArithmetic(rate: real, newRate: real, burst: real, tokens: real)
    requires rate > 0.0 && newRate > 0.0 && burst > 0.0 && rate * burst > 0.0 && 0.0 <= tokens <= rate * burst
    ensures var scaled := newRate * burst * (tokens / (rate * burst));
      0.0 <= scaled <= newRate * burst && scaled / newRate == tokens / rate
  {
    var capacity := rate * burst;
    var ratio := tokens / capacity;
    RatioBounds(tokens, capacity);
    Scaled(newRate, burst, ratio);
    Scaled(rate, burst, ratio);
    DivMul(tokens, capacity);
  }

  lemma RatioBounds(part: real, whole: real)
    requires 0.0 <= part <= whole && whole > 0.0
    ensures 0.0 <= part / whole <= 1.0
  {
    DivOrder(0.0, part, whole);
    DivOrder(part, whole, whole);
    MulDiv(0.0, whole);
    MulDiv(1.0, whole);
  }

  lemma Scaled(rate: real, burst: real, ratio: real)
    requires rate > 0.0 && burst > 0.0 && 0.0 <= ratio <= 1.0
    ensures 0.0 <= rate * burst * ratio <= rate * burst
    ensures rate * burst * ratio / rate == burst * ratio
    ensures ratio * (rate * burst) == rate * burst * ratio
  {
    MulOrder(0.0, rate, burst);
    PartOf(rate * burst, ratio);
    Regroup(rate, burst, ratio);
    MulDiv(burst * ratio, rate);
  }

  lemma PartOf(whole: real, ratio: real)
    requires whole >= 0.0 && 0.0 <= ratio <= 1.0
    ensures 0.0 <= whole * ratio <= whole
  {
  }

  lemma Regroup(a: real, b: real, c: real)
    ensures a * b * c == b * c * a
  {
  }

  /**
   The bucket is a virtual-time limiter.  Every operation first brings the virtual time up to
   `burst` behind the accounted time, then adds its own cost; the bucket's new time, which is when
   the caller may proceed, is the later of the accounted time and the virtual time.
   */
  lemma ApplyVirtual(b: Bucket, burst: real, op: Op)
    requires b.Valid(burst) && OpOk(op)
    ensures Apply(b, burst, op).Valid(burst)
    ensures Apply(b, burst, op).Virtual() == RMax(b.Virtual(), RMax(op.now, b.last) - burst) + Cost(b, op)
    ensures Apply(b, burst, op).last == RMax(RMax(op.now, b.last), Apply(b, burst, op).Virtual())
  {
    RefillVirtual(b, burst, op.now);
    var refilled := b.Refill(op.now);
    match op
    case Consume(bytes, now) => SpendVirtual(refilled, burst, bytes as real);
    case SetRate(rate, now) =>
      RescaleVirtual(refilled, burst, rate);
      DivOrder(0.0, refilled.tokens, b.rate);
  }

  /* ----- whole runs ----- */

  predicate OpsOk(ops: seq<Op>) {
    forall op | op in ops :: OpOk(op)
  }

  /** `TokenBucket::new`: full, at time zero. */
  function NewBucket(rate: real, burst: real): Bucket {
    Bucket(rate, rate * burst, rate * burst, 0.0)
  }

  lemma FreshBucket(rate: real, burst: real)
    requires rate > 0.0 && burst > 0.0
    ensures NewBucket(rate, burst).Valid(burst) && NewBucket(rate, burst).Virtual() == -burst
    ensures NewBucket(rate, burst).rate == rate && NewBucket(rate, burst).last == 0.0
  {
    MulOrder(0.0, rate, burst);
    MulDiv(burst, rate);
  }

  /** The bucket after a mixed run of operations, and the seconds of sending it paid for. */
  ghost function RunOps(b: Bucket, burst: real, ops: seq<Op>): (r: (Bucket, real))
    requires b.Valid(burst) && OpsOk(ops)
    ensures r.0.Valid(burst)
    decreases |ops|
  {
    if ops == [] then (b, 0.0) else
    assert ops[0] in ops;
    ApplyVirtual(b, burst, ops[0]);
    var rest := RunOps(Apply(b, burst, ops[0]), burst, ops[1..]);
    (rest.0, Cost(b, ops[0]) + rest.1)
  }

  /**
   In any run, with any clock readings and any rate changes, time never goes back and the sending
   paid for is at most the time that passed plus one burst.
   */
  lemma {:induction false} RunBounded(b: Bucket, burst: real, ops: seq<Op>)
    requires b.Valid(burst) && OpsOk(ops)
    ensures RunOps(b, burst, ops).0.last >= b.last
    ensures RunOps(b, burst, ops).1 <= RunOps(b, burst, ops).0.Virtual() - b.Virtual()
    ensures RunOps(b, burst, ops).1 <= RunOps(b, burst, ops).0.last - b.last + burst
    decreases |ops|
  {
    VirtualWindow(b, burst);
    VirtualWindow(RunOps(b, burst, ops).0, burst);
    if ops != [] {
      assert ops[0] in ops;
      ApplyVirtual(b, burst, ops[0]);
      RunBounded(Apply(b, burst, ops[0]), burst, ops[1..]);
    }
  }

  /** The rate once an operation is done. */
  function RateAfter(rate: real, op: Op): real {
    match op case Consume(_, _) => rate case SetRate(newRate, _) => newRate
  }

  /** The rate of a bucket is that of the last rate change, or the first rate if there was none. */
  lemma {:induction false} RunRate(b: Bucket, burst: real, ops: seq<Op>)
    requires b.Valid(burst) && OpsOk(ops)
    ensures forall k | 0 <= k < |ops| && ops[k].SetRate? && (forall l | k < l < |ops| :: ops[l].Consume?) ::
      RunOps(b, burst, ops).0.rate == ops[k].rate
    ensures (forall k | 0 <= k < |ops| :: ops[k].Consume?) ==> RunOps(b, burst, ops).0.rate == b.rate
    decreases |ops|
  {
    if ops != [] {
      assert ops[0] in ops;
      ApplyVirtual(b, burst, ops[0]);
      RateSteps(b, burst, ops[0]);
      var after, rest := Apply(b, burst, ops[0]), ops[1..];
      RunRate(after, burst, rest);
      forall k | 0 <= k < |ops| && ops[k].SetRate? && (forall l | k < l < |ops| :: ops[l].Consume?)
        ensures RunOps(b, burst, ops).0.rate == ops[k].rate
      {
        assert forall m | 0 <= m < |rest| :: rest[m] == ops[m + 1];
        if k > 0 { assert rest[k - 1] == ops[k]; }
      }
    }
  }

  lemma RateSteps(b: Bucket, burst: real, op: Op)
    requires b.rate > 0.0
    ensures Apply(b, burst, op).rate == RateAfter(b.rate, op)
  {
  }

  /** The bytes of a run of requests. */
  function Bytes(ops: seq<Op>): real {
    if ops == [] then 0.0 else (if ops[0].Consume? then ops[0].bytes as real else 0.0) + Bytes(ops[1..])
  }

  /** What a rate lets through in so many seconds. */
  function Load(rate: real, seconds: real): real { rate * seconds }

  predicate Steady(ops: seq<Op>) {
    forall op | op in ops :: op.Consume?
  }

  lemma {:induction false} SteadyCost(b: Bucket, burst: real, ops: seq<Op>)
    requires b.Valid(burst) && Steady(ops)
    ensures Load(b.rate, RunOps(b, burst, ops).1) == Bytes(ops)
    decreases |ops|
  {
    if ops == [] {
      LoadOfNothing(b.rate);
    } else {
      assert ops[0] in ops && forall op | op in ops[1..] :: op in ops;
      ApplyVirtual(b, burst, ops[0]);
      RateSteps(b, burst, ops[0]);
      var after, rest := Apply(b, burst, ops[0]), ops[1..];
      SteadyCost(after, burst, rest);
      LoadOfCost(b.rate, ops[0].bytes as real, RunOps(after, burst, rest).1);
    }
  }

  lemma LoadOfNothing(rate: real)
    ensures Load(rate, 0.0) == 0.0
  {
  }

  lemma LoadOfCost(rate: real, bytes: real, rest: real)
    requires rate > 0.0
    ensures Load(rate, bytes / rate + rest) == bytes + Load(rate, rest)
  {
    DivMul(bytes, rate);
    assert (bytes / rate + rest) * rate == bytes + rest * rate;
  }

  lemma LoadOrder(rate: real, a: real, b: real)
    requires rate > 0.0 && a <= b
    ensures Load(rate, a) <= Load(rate, b)
  {
    MulOrder(a, b, rate);
  }

  /** Between rate changes at most the rate, times the time passed and one burst, is let through. */
  lemma BytesBounded(b: Bucket, burst: real, ops: seq<Op>)
    requires b.Valid(burst) && Steady(ops)
    ensures Bytes(ops) <= Load(b.rate, RunOps(b, burst, ops).0.last - b.last + burst)
  {
    RunBounded(b, burst, ops);
    SteadyCost(b, burst, ops);
    LoadOrder(b.rate, RunOps(b, burst, ops).1, RunOps(b, burst, ops).0.last - b.last + burst);
  }

  /** So it is after the last change of any run, at the rate it set. */
  lemma BytesAfterChange(b: Bucket, burst: real, front: seq<Op>, rate: real, now: real, ops: seq<Op>)
    requires b.Valid(burst) && OpsOk(front) && rate > 0.0 && Steady(ops)
    ensures OpsOk(front + [SetRate(rate, now)])
    ensures RunOps(b, burst, front + [SetRate(rate, now)]).0.rate == rate
    ensures
      var changed := RunOps(b, burst, front + [SetRate(rate, now)]).0;
      Bytes(ops) <= Load(rate, RunOps(changed, burst, ops).0.last - changed.last + burst)
  {
    RunChanged(b, burst, front, rate, now);
    BytesAtRate(RunOps(b, burst, front + [SetRate(rate, now)]).0, burst, rate, ops);
  }

  lemma BytesAtRate(b: Bucket, burst: real, rate: real, ops: seq<Op>)
    requires b.Valid(burst) && b.rate == rate && Steady(ops)
    ensures Bytes(ops) <= Load(rate, RunOps(b, burst, ops).0.last - b.last + burst)
  {
    BytesBounded(b, burst, ops);
  }

  lemma RunChanged(b: Bucket, burst: real, front: seq<Op>, rate: real, now: real)
    requires b.Valid(burst) && OpsOk(front) && rate > 0.0
    ensures OpsOk(front + [SetRate(rate, now)])
    ensures RunOps(b, burst, front + [SetRate(rate, now)]).0.rate == rate
  {
    var all := front + [SetRate(rate, now)];
    assert forall op | op in all :: op in front || op == SetRate(rate, now);
    RunRate(b, burst, all);
    assert all[|front|] == SetRate(rate, now);
  }

  /** The virtual time is at most `burst` behind the bucket's time and never ahead of it. */
  lemma VirtualWindow(b: Bucket, burst: real)
    requires b.Valid(burst)
    ensures b.last - burst <= b.Virtual() <= b.last
  {
    CapacityWorth(b, burst);
    DivOrder(0.0, b.tokens, b.rate);
    DivOrder(b.tokens, b.capacity, b.rate);
  }

  /** From a new bucket: all sending ever paid for fits in the bucket's time plus the burst. */
  lemma FreshRunBounded(rate: real, burst: real, ops: seq<Op>)
    requires rate > 0.0 && burst > 0.0 && OpsOk(ops)
    ensures NewBucket(rate, burst).Valid(burst)
    ensures RunOps(NewBucket(rate, burst), burst, ops).1 <= RunOps(NewBucket(rate, burst), burst, ops).0.last + burst
  {
    FreshBucket(rate, burst);
    RunBounded(NewBucket(rate, burst), burst, ops);
  }

  /** A bucket that is never empty is granted at once: the limiter does not delay traffic within the burst. */
  lemma WithinBurstIsImmediate(b: Bucket, burst: real, bytes: nat, now: real)
    requires b.Valid(burst) && now >= b.last
    ensures Apply(b, burst, Consume(bytes, now)).last == now
       <==> RMax(b.Virtual(), now - burst) + bytes as real / b.rate <= now
  {
    ApplyVirtual(b, burst, Consume(bytes, now));
  }
}
