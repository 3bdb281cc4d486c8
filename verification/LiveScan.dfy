/**
 The live scan's sending loop over the mapped files.  Every method keeps the scan on a run of the
 round machine, so what is proved about all runs holds of it.  The kernel, the clock, the capture
 device, the limiter's waits and the stop flag are oracles read at successive ticks.
 */
module LiveScan {
  import opened Words
  import opened Endpoints
  import CycleWalks
  import opened Permutations
  import opened Results
  import opened Packets
  import opened Attribution
  import opened Replies
  import opened ScanFiles
  import opened Rounds

  /**
   One process's view of the outside world, by tick, with the keys of its own packets.  The stop flag is set at
   some tick, or never, and not cleared.
   */
  datatype Env = Env(
    run: Run,
    stopAt: Option<nat>,
    wait: nat -> nat,
    sample: nat -> u8,
    clock: nat -> u32,
    packets: nat -> seq<seq<u8>>,
    kernel: nat -> nat,
    failing: set<nat>,
    template: nat -> SynPacket
  ) {
    /** `sendmmsg` answers with an error. */
    predicate SendFails(tick: nat) { tick in failing }

    predicate Stop(tick: nat) { stopAt.Some? && stopAt.value <= tick }
  }

  /** A job, and whether no crash led to it. */
  datatype Status = Status(orderly: bool, job: Job)

  /** Every step of the machine stays inside the set. */
  ghost predicate Inductive(plan: Plan, inv: iset<Status>) {
    forall st, s {:trigger st in inv, Enabled(plan, st.job, s)} | st in inv && Enabled(plan, st.job, s) ::
      Status(st.orderly && !s.Crash?, After(plan, st.job, s)) in inv
  }

  lemma Kept(plan: Plan, inv: iset<Status>, o: bool, j: Job, s: Step)
    requires Inductive(plan, inv) && Status(o, j) in inv && Enabled(plan, j, s)
    ensures Status(o && !s.Crash?, After(plan, j, s)) in inv
  {
    var st := Status(o, j);
    assert st in inv && Enabled(plan, st.job, s);
  }

  /** Handling packets is a series of steps. */
  lemma {:induction false} HeedKept(
      plan: Plan, inv: iset<Status>, o: bool, j: Job, run: Run, es: seq<Endpoint>, packets: seq<seq<u8>>, attempt: nat,
      now: u32)
    requires Inductive(plan, inv) && Status(o, j) in inv && |j.cells| == |es|
    requires j.batch == [] && attempt == AttemptNow(plan, j)
    ensures Status(o, j.(cells := Heed(run, es, j.cells, packets, attempt, now))) in inv
    decreases |packets|
  {
    if packets == [] {
      assert j.(cells := j.cells) == j;
    } else {
      HeedOneKept(plan, inv, o, j, run, es, packets[0], attempt, now);
      HeedKept(plan, inv, o, j.(cells := HeedOne(run, es, j.cells, packets[0], attempt, now)), run, es, packets[1..],
        attempt, now);
    }
  }

  lemma HeedOneKept(
      plan: Plan, inv: iset<Status>, o: bool, j: Job, run: Run, es: seq<Endpoint>, data: seq<u8>, attempt: nat,
      now: u32)
    requires Inductive(plan, inv) && Status(o, j) in inv && |j.cells| == |es|
    requires j.batch == [] && attempt == AttemptNow(plan, j)
    ensures Status(o, j.(cells := HeedOne(run, es, j.cells, data, attempt, now))) in inv
  {
    SeenIsReal(run, es, data);
    var seen := PacketSeen(run, es, data);
    if seen.Some? {
      Kept(plan, inv, o, j, Hear(seen.value.index, Reply(seen.value.state, attempt, now)));
    } else {
      assert j.(cells := j.cells) == j;
    }
  }

  lemma CrashedJob(plan: Plan, j: Job, left: nat)
    requires left <= |j.batch|
    ensures After(plan, j, Crash(left, None)) == Job(j.cells, j.saved, false, [], j.saved, j.Left(left))
  {
  }

  const MAX_SLEEP: nat := 100
  const BATCH_MIN: nat := 32
  const BATCH_RANGE: nat := 65
  const CHECKPOINT_EVERY: nat := 10_000

  /** The sleeps a wait is cut into. */
  function Slices(wait: nat): nat { (wait + MAX_SLEEP - 1) / MAX_SLEEP }

  /** A prepared SYN: the endpoint it is for and the packet. */
  datatype PreparedSyn = PreparedSyn(index: nat, packet: SynPacket)

  function Indexes(batch: seq<PreparedSyn>): (r: seq<nat>)
    ensures |r| == |batch|
  {
    seq(|batch|, i requires 0 <= i < |batch| => batch[i].index)
  }

  /** Every packet of the batch is the SYN its endpoint's replies will be checked against. */
  predicate Genuine(run: Run, es: seq<Endpoint>, batch: seq<PreparedSyn>) {
    forall i | 0 <= i < |batch| :: batch[i].index < |es| && run.IsSynFor(es[batch[i].index], batch[i].packet)
  }

  /** `get` reads the order off, position by position. */
  ghost predicate ReadsOff(perm: Permutation, order: seq<nat>)
    requires perm.Valid()
  {
    |order| == perm.n && forall k: nat {:trigger perm.At(k)} | k < perm.n :: perm.At(k) == order[k]
  }

  /** The plan a permutation and a number of rounds amount to. */
  ghost predicate IsPlan(perm: Permutation, attempts: nat, plan: Plan) {
    perm.Valid() && plan.attempts == attempts && ReadsOff(perm, plan.order) && plan.Valid()
  }

  lemma PlanOf(perm: Permutation, attempts: nat)
    requires perm.Valid()
    ensures IsPlan(perm, attempts, Plan(Order(perm), attempts))
  {
    OrderIsOrder(perm);
    forall k: nat | k < perm.n ensures perm.At(k) == Order(perm)[k] {
      CycleWalks.ListingAt(perm.Picks(), perm.n, k);
    }
  }

  /* ----- what a process hears ----- */

  /**
   One call of `receive_replies`: whether it is a late one, after a pause or at the end, the batch sent since the
   call before, the attempt it counts for, the tick of the capture, and the cells it found.
   */
  datatype Reception = Reception(late: bool, sent: seq<nat>, attempt: nat, tick: nat, before: seq<Cell>)

  /** What a process changes while it sends and listens, and how many receptions there were, late ones apart. */
  datatype Moment = Moment(ticks: nat, cells: seq<Cell>, queue: seq<OpenTarget>, wire: multiset<Syn>, late: nat,
    calls: nat)

  function Heeded(env: Env, es: seq<Endpoint>, r: Reception): seq<Cell>
    requires |r.before| == |es|
  {
    Heed(env.run, es, r.before, env.packets(r.tick), r.attempt, env.clock(r.tick))
  }

  /** The clock read so at one of these ticks. */
  ghost predicate ClockRead(env: Env, from: nat, to: nat, now: u32) {
    exists tick :: from <= tick < to && env.clock(tick) == now
  }

  /** Unchanged, or stamped with a reading of the clock in between. */
  ghost predicate StampedCell(env: Env, from: nat, to: nat, a: Cell, b: Cell) {
    b == a || (b == Apply(a, Probed(b.sentAt)) && ClockRead(env, from, to, b.sentAt))
  }

  /** Only stamps of probes differ. */
  ghost predicate Stamped(env: Env, from: nat, to: nat, a: seq<Cell>, b: seq<Cell>) {
    |a| == |b| && forall i | 0 <= i < |a| :: StampedCell(env, from, to, a[i], b[i])
  }

  /** Time went by and probes were stamped. */
  ghost predicate Prepared(env: Env, a: Moment, b: Moment) {
    && a.ticks <= b.ticks && Stamped(env, a.ticks, b.ticks, a.cells, b.cells) && b.queue == a.queue && b.wire == a.wire
    && b.late == a.late && b.calls == a.calls
  }

  /** The moment after a reception: the batch is on the wire and the captured packets are handled. */
  function Received(env: Env, es: seq<Endpoint>, a: Moment, r: Reception): Moment
    requires |r.before| == |es|
  {
    Moment(
      r.tick + 1, Heeded(env, es, r),
      a.queue + HandedAll(env.run, es, r.before, env.packets(r.tick), r.attempt, env.clock(r.tick)),
      a.wire + SentBefore(r),
      a.late + (if r.late then 1 else 0),
      a.calls + 1)
  }

  /** A batch is sent in the round that its reception's attempt numbers from one. */
  function SentBefore(r: Reception): multiset<Syn> {
    if r.attempt > 0 then Tagged(r.attempt - 1, r.sent) else multiset{}
  }

  /** The receptions, with probes stamped in between, lead from one moment to the other. */
  ghost predicate Tells(env: Env, es: seq<Endpoint>, story: seq<Reception>, a: Moment, b: Moment)
    decreases |story|
  {
    if story == [] then Prepared(env, a, b)
    else Hears(env, es, story[0], a) && Tells(env, es, story[1..], Received(env, es, a, story[0]), b)
  }

  /** A reception takes place some time after a moment, following one batch at most. */
  ghost predicate Hears(env: Env, es: seq<Endpoint>, r: Reception, a: Moment) {
    && |r.before| == |es|
    && |r.sent| <= 96
    && (r.late ==> r.sent == [])
    && Prepared(env, a, Moment(r.tick, r.before, a.queue, a.wire, a.late, a.calls))
  }

  /** Waiting, stamping and receiving do not leave the set. */
  ghost predicate Listening(env: Env, es: seq<Endpoint>, moments: iset<Moment>) {
    && (forall a, b {:trigger Prepared(env, a, b)} | a in moments && Prepared(env, a, b) :: b in moments)
    && (forall a, r {:trigger Received(env, es, a, r)} | a in moments && Hears(env, es, r, a) ::
          Received(env, es, a, r) in moments)
  }

  lemma Waited(env: Env, es: seq<Endpoint>, moments: iset<Moment>, a: Moment, b: Moment)
    requires Listening(env, es, moments) && a in moments && Prepared(env, a, b)
    ensures b in moments
  {
  }

  lemma Listened(env: Env, es: seq<Endpoint>, moments: iset<Moment>, a: Moment, r: Reception, b: Moment)
    requires Listening(env, es, moments) && a in moments && Hears(env, es, r, a) && b == Received(env, es, a, r)
    ensures b in moments
  {
  }

  ghost const EVERY_MOMENT: iset<Moment> := iset m: Moment | true

  lemma EveryMoment(env: Env, es: seq<Endpoint>)
    ensures Listening(env, es, EVERY_MOMENT)
  {
  }

  /** The moments some receptions lead to. */
  ghost function Stories(env: Env, es: seq<Endpoint>, from: Moment): iset<Moment> {
    iset m: Moment | Follows(env, es, from, m)
  }

  ghost predicate Follows(env: Env, es: seq<Endpoint>, from: Moment, to: Moment) {
    exists story :: Tells(env, es, story, from, to)
  }

  lemma StoriesListen(env: Env, es: seq<Endpoint>, from: Moment)
    ensures Listening(env, es, Stories(env, es, from)) && from in Stories(env, es, from)
  {
    TellsNothing(env, es, from, from);
    forall a, b | a in Stories(env, es, from) && Prepared(env, a, b) ensures b in Stories(env, es, from) {
      var story :| Tells(env, es, story, from, a);
      TellsNothing(env, es, a, b);
      TellsOn(env, es, story, [], from, a, b);
    }
    forall a, r | a in Stories(env, es, from) && Hears(env, es, r, a)
      ensures Received(env, es, a, r) in Stories(env, es, from)
    {
      var story :| Tells(env, es, story, from, a);
      TellsOne(env, es, r, a, Received(env, es, a, r));
      TellsOn(env, es, story, [r], from, a, Received(env, es, a, r));
    }
  }

  lemma StampedNone(env: Env, from: nat, to: nat, a: seq<Cell>)
    ensures Stamped(env, from, to, a, a)
  {
  }

  lemma StampedOne(env: Env, from: nat, to: nat, a: seq<Cell>, i: nat, at: u32)
    requires i < |a| && from < to && at == env.clock(from)
    ensures Stamped(env, from, to, a, a[i := Apply(a[i], Probed(at))])
  {
    assert ClockRead(env, from, to, at);
  }

  lemma ClockReadLonger(env: Env, from: nat, to: nat, now: u32, first: nat, last: nat)
    requires ClockRead(env, from, to, now) && first <= from && to <= last
    ensures ClockRead(env, first, last, now)
  {
    var tick :| from <= tick < to && env.clock(tick) == now;
  }

  lemma StampedCellOn(env: Env, from: nat, mid: nat, to: nat, a: Cell, b: Cell, c: Cell)
    requires from <= mid <= to && StampedCell(env, from, mid, a, b) && StampedCell(env, mid, to, b, c)
    ensures StampedCell(env, from, to, a, c)
  {
    if c == b {
      if b != a { ClockReadLonger(env, from, mid, b.sentAt, from, to); }
    } else {
      ClockReadLonger(env, mid, to, c.sentAt, from, to);
    }
  }

  lemma StampedOn(env: Env, from: nat, mid: nat, to: nat, a: seq<Cell>, b: seq<Cell>, c: seq<Cell>)
    requires from <= mid <= to && Stamped(env, from, mid, a, b) && Stamped(env, mid, to, b, c)
    ensures Stamped(env, from, to, a, c)
  {
    forall i | 0 <= i < |a| ensures StampedCell(env, from, to, a[i], c[i]) {
      StampedCellOn(env, from, mid, to, a[i], b[i], c[i]);
    }
  }

  lemma PreparedTrans(env: Env, a: Moment, b: Moment, c: Moment)
    requires Prepared(env, a, b) && Prepared(env, b, c)
    ensures Prepared(env, a, c)
  {
    StampedOn(env, a.ticks, b.ticks, c.ticks, a.cells, b.cells, c.cells);
  }

  lemma HearsLater(env: Env, es: seq<Endpoint>, r: Reception, a: Moment, b: Moment)
    requires Prepared(env, a, b) && Hears(env, es, r, b)
    ensures Hears(env, es, r, a) && Received(env, es, a, r) == Received(env, es, b, r)
  {
    PreparedTrans(env, a, b, Moment(r.tick, r.before, b.queue, b.wire, b.late, b.calls));
  }

  lemma {:induction false} TellsOn(
      env: Env, es: seq<Endpoint>, s: seq<Reception>, t: seq<Reception>, a: Moment, b: Moment, c: Moment)
    requires Tells(env, es, s, a, b) && Tells(env, es, t, b, c)
    ensures Tells(env, es, s + t, a, c)
    decreases |s|
  {
    if s == [] {
      assert s + t == t;
      if t == [] { PreparedTrans(env, a, b, c); } else { HearsLater(env, es, t[0], a, b); }
    } else {
      assert (s + t)[1..] == s[1..] + t;
      TellsOn(env, es, s[1..], t, Received(env, es, a, s[0]), b, c);
    }
  }

  /** Stamping and waiting. */
  lemma TellsNothing(env: Env, es: seq<Endpoint>, a: Moment, b: Moment)
    requires Prepared(env, a, b)
    ensures Tells(env, es, [], a, b)
  {
  }

  /** A batch and the reception after it. */
  lemma TellsOne(env: Env, es: seq<Endpoint>, r: Reception, a: Moment, b: Moment)
    requires Hears(env, es, r, a) && b == Received(env, es, a, r)
    ensures Tells(env, es, [r], a, b)
  {
    assert [r][1..] == [];
  }

  function FreshJob(cells: seq<Cell>): Job { Job(cells, Meta(0, 0, 0), false, [], Meta(0, 0, 0), multiset{}) }

  class SynScan {
    const perm: Permutation
    const attempts: nat
    const buffers: ScanBuffers
    ghost const plan: Plan
    var ticks: nat
    var round: nat
    var next: nat
    var packetsSent: nat
    var saved: Meta
    ghost var resting: bool
    ghost var late: nat
    ghost var calls: nat
    ghost var wire: multiset<Syn>
    ghost var orderly: bool
    ghost const inv: iset<Status>

    ghost predicate Shaped() {
      && buffers.Valid()
      && Inductive(plan, inv) && plan.attempts == attempts && |plan.order| == |buffers.es|
      && (forall k | 0 <= k < |plan.order| :: plan.order[k] < |buffers.es|)
    }

    /** The plan is the permutation's order over the endpoints of the files. */
    ghost predicate Walks()
      requires buffers.Valid()
    {
      perm.Valid() && perm.n == |buffers.es| && ReadsOff(perm, plan.order)
    }

    /** `perm.get`. */
    method Visit(order: nat) returns (index: nat)
      requires Shaped() && Walks() && order < |buffers.es|
      ensures index == plan.order[order] && index < |buffers.es|
    {
      var value, _ := Get(perm, order);
      index := value;
      assert perm.At(order) == plan.order[order];
    }

    /** The job with the walk at `order` and `batch` waiting. */
    ghost function State(order: nat, batch: seq<nat>): Job
      requires buffers.Valid()
      reads this`round, this`packetsSent, this`resting, this`saved, this`wire, buffers.Files()
    {
      Job(buffers.Cells(), Meta(round, order, packetsSent), resting, batch, saved, wire)
    }

    /** The invariant holds of that job. */
    ghost predicate Tracks(order: nat, batch: seq<nat>)
      requires buffers.Valid()
      reads this`round, this`packetsSent, this`resting, this`saved, this`wire, this`orderly, buffers.Files()
    {
      order <= |buffers.es| && saved.next <= |buffers.es| && Status(orderly, State(order, batch)) in inv
    }

    /** A job just created: blank files, nothing sent. */
    constructor (
        perm: Permutation, attempts: nat, files: ScanBuffers, ghost plan: Plan, ghost start: Job,
        ghost inv: iset<Status>)
      requires files.Valid() && perm.n == |files.es| && IsPlan(perm, attempts, plan)
      requires start == FreshJob(files.Cells()) && Inductive(plan, inv) && Status(true, start) in inv
      ensures buffers == files && this.perm == perm && this.attempts == attempts && this.plan == plan && this.inv == inv
      ensures Shaped() && Walks() && Rests() && orderly
    {
      this.perm, this.attempts, buffers := perm, attempts, files;
      this.plan, this.inv := plan, inv;
      ticks, round, next, packetsSent, saved := 0, 0, 0, 0, Meta(0, 0, 0);
      resting, late, calls, wire, orderly := false, 0, 0, multiset{}, true;
      new;
      assert State(next, []) == start;
    }

    /** Between runs: memory agrees with the checkpoint, nothing waits and no pause is under way. */
    ghost predicate Rests()
      requires buffers.Valid()
      reads this, buffers.Files()
    {
      Tracks(next, []) && saved == Meta(round, next, packetsSent) && (resting ==> round >= attempts)
    }

    /** What the receptions of a run account for. */
    ghost function Now(): Moment
      requires buffers.Valid()
      reads this`ticks, this`wire, this`late, this`calls, buffers`queue, buffers.Files()
    {
      Moment(ticks, buffers.Cells(), buffers.queue, wire, late, calls)
    }

    /** `consume_interruptible`: sleep off the reservation in slices, watching the stop flag. */
    method ConsumeInterruptible(env: Env) returns (granted: bool)
      modifies this`ticks
      ensures ticks > old(ticks)
      ensures granted <==> !env.Stop(ticks - 1)
      ensures granted ==> ticks == old(ticks) + 2 + (env.wait(old(ticks)) + 99) / 100
    {
      var remaining := env.wait(ticks);
      ticks := ticks + 1;
      while remaining > 0
        invariant remaining >= 0 && ticks == old(ticks) + 1 + Slices(env.wait(old(ticks))) - Slices(remaining)
      {
        ticks := ticks + 1;
        if env.Stop(ticks - 1) { return false; }
        var sleepFor := Min(remaining, MAX_SLEEP);
        remaining := remaining - sleepFor;
      }
      ticks := ticks + 1;
      granted := !env.Stop(ticks - 1);
    }

    /** `checkpoint`. */
    method Checkpoint(order: nat)
      requires Shaped() && Tracks(order, []) && !resting
      modifies this`next, this`saved
      ensures Rests() && next == order
    {
      ghost var before := State(order, []);
      Kept(plan, inv, orderly, before, Save);
      next := order;
      saved := Meta(round, order, packetsSent);
      assert State(order, []) == After(plan, before, Save);
    }

    /** `receive_replies`. */
    method Receive(env: Env, attempt: nat, order: nat)
      requires Shaped() && Tracks(order, []) && attempt == AttemptNow(plan, State(order, []))
      modifies this`ticks, buffers`queue, buffers.Files()
      ensures Tracks(order, []) && ticks == old(ticks) + 1 && unchanged(`round, `next, `packetsSent, `saved, `orderly)
      ensures buffers.Cells()
        == Heed(env.run, buffers.es, old(buffers.Cells()), env.packets(old(ticks)), attempt, env.clock(old(ticks)))
      ensures buffers.queue == old(buffers.queue)
        + HandedAll(env.run, buffers.es, old(buffers.Cells()), env.packets(old(ticks)), attempt, env.clock(old(ticks)))
    {
      var packets, now := env.packets(ticks), env.clock(ticks);
      ghost var before := State(order, []);
      ticks := ticks + 1;
      buffers.Receive(env.run, packets, attempt, now);
      HeedKept(plan, inv, orderly, before, env.run, buffers.es, packets, attempt, now);
      assert State(order, []) == before.(cells := buffers.Cells());
    }

    /** `batch_size`: 32 to 96 packets. */
    function BatchSize(env: Env, order: nat): (size: nat)
      ensures 32 <= size <= 96 && size == 32 + env.sample(order) % 65
    {
      BATCH_MIN + env.sample(order) % BATCH_RANGE
    }

    /** The SYN for an endpoint; the fields replies are not checked against come from the template. */
    function SynTo(env: Env, e: Endpoint, tick: nat): (p: SynPacket)
      ensures env.run.IsSynFor(e, p)
    {
      env.template(tick).(
        src := env.run.src,
        dst := e.ip,
        sourcePort := env.run.SourcePort(e.ip, e.service.port),
        destPort := e.service.port,
        sequence := env.run.Cookie(e.ip, e.service.port))
    }

    /** `prepare_syn_batch`. */
    method PrepareBatch(env: Env, start: nat) returns (order: nat, batch: seq<PreparedSyn>)
      requires Shaped() && Walks() && Tracks(start, []) && start < |buffers.es| && round < attempts && !resting
      modifies this`ticks, buffers.sentTimes
      ensures start <= order && Tracks(order, Indexes(batch)) && Genuine(env.run, buffers.es, batch)
      ensures ticks >= old(ticks) && unchanged(`round, `orderly)
      ensures order == start ==> batch == [] && ticks > old(ticks) && env.Stop(ticks - 1)
      ensures |batch| <= 96 && Stamped(env, old(ticks), ticks, old(buffers.Cells()), buffers.Cells())
    {
      var size, granted := BatchSize(env, start), true;
      order, batch := start, [];
      assert Indexes([]) == [];
      while order < buffers.states.Length && |batch| < size && granted
        invariant start <= order && Tracks(order, Indexes(batch)) && Genuine(env.run, buffers.es, batch)
        invariant ticks >= old(ticks) && unchanged(`round, `orderly)
        invariant order == start ==> batch == []
        invariant |batch| <= size && Stamped(env, old(ticks), ticks, old(buffers.Cells()), buffers.Cells())
        invariant !granted ==> ticks > old(ticks) && env.Stop(ticks - 1)
        decreases |buffers.es| - order, granted
      {
        order, batch, granted := PrepareNext(env, order, batch);
      }
    }

    /** One turn of its loop; not granted when the limiter was interrupted. */
    method PrepareNext(env: Env, order: nat, batch: seq<PreparedSyn>)
      returns (order': nat, batch': seq<PreparedSyn>, granted: bool)
      requires Shaped() && Walks() && Tracks(order, Indexes(batch)) && Genuine(env.run, buffers.es, batch)
      requires order < |buffers.es| && round < attempts && !resting
      modifies this`ticks, buffers.sentTimes
      ensures Tracks(order', Indexes(batch')) && Genuine(env.run, buffers.es, batch')
      ensures ticks >= old(ticks) && unchanged(`round, `orderly)
      ensures granted ==> order' == order + 1
      ensures |batch'| <= |batch| + 1 && Stamped(env, old(ticks), ticks, old(buffers.Cells()), buffers.Cells())
      ensures !granted ==> order' == order && batch' == batch && ticks > old(ticks) && env.Stop(ticks - 1)
    {
      ghost var before := State(order, Indexes(batch));
      var index := Visit(order);
      assert State(order, Indexes(batch)) == before;
      if DecodedState(buffers.states[index]) != NoResponse {
        SkipOne(order, Indexes(batch));
        return order + 1, batch, true;
      }
      granted := ConsumeInterruptible(env);
      assert State(order, Indexes(batch)) == before;
      if !granted { return order, batch, false; }
      var syn := PrepareOne(env, order, Indexes(batch), index);
      assert Indexes(batch + [syn]) == Indexes(batch) + [index];
      return order + 1, batch + [syn], true;
    }

    lemma SkipOne(order: nat, batch: seq<nat>)
      requires Shaped() && Tracks(order, batch) && order < |buffers.es| && round < attempts && !resting
      requires plan.order[order] < |buffers.es| && DecodedState(buffers.states[plan.order[order]]) != NoResponse
      ensures Tracks(order + 1, batch)
    {
      var before := State(order, batch);
      Kept(plan, inv, orderly, before, Skip);
      assert State(order + 1, batch) == After(plan, before, Skip);
    }

    /** The part of the loop after the limiter has let the SYN through. */
    method PrepareOne(env: Env, order: nat, ghost batch: seq<nat>, index: nat) returns (syn: PreparedSyn)
      requires Shaped() && Tracks(order, batch) && order < |buffers.es| && round < attempts && !resting
      requires index == plan.order[order] && index < |buffers.es| && DecodedState(buffers.states[index]) == NoResponse
      modifies this`ticks, buffers.sentTimes
      ensures Tracks(order + 1, batch + [index])
      ensures syn.index == index && env.run.IsSynFor(buffers.es[index], syn.packet)
      ensures Stamped(env, old(ticks), ticks, old(buffers.Cells()), buffers.Cells())
      ensures ticks == old(ticks) + 1
    {
      var endpoint := EndpointOf(buffers.targets, buffers.ports, buffers.protocols, index);
      EndpointReadsBack(buffers.es, index);
      syn := PreparedSyn(index, SynTo(env, endpoint, ticks));
      var at := env.clock(ticks);
      ghost var before := State(order, batch);
      ticks := ticks + 1;
      assert State(order, batch) == before;
      StampOne(order, batch, index, at);
      StampedOne(env, old(ticks), ticks, before.cells, index, at);
    }

    method StampOne(order: nat, ghost batch: seq<nat>, index: nat, at: u32)
      requires Shaped() && Tracks(order, batch) && order < |buffers.es| && round < attempts && !resting
      requires index == plan.order[order] && index < |buffers.es| && DecodedState(buffers.states[index]) == NoResponse
      modifies buffers.sentTimes
      ensures Tracks(order + 1, batch + [index])
      ensures buffers.Cells() == old(buffers.Cells())[index := Apply(old(buffers.Cells())[index], Probed(at))]
    {
      ghost var before := State(order, batch);
      buffers.Stamp(index, at);
      Kept(plan, inv, orderly, before, Prepare(at));
      assert State(order + 1, batch + [index]) == After(plan, before, Prepare(at));
    }

    /**
     `send_syn_batch` and the count kept of it. A failing send ends the process, whose position in memory is
     lost.
     */
    method SendBatch(env: Env, batch: seq<PreparedSyn>, order: nat) returns (ok: bool)
      requires Shaped() && Tracks(order, Indexes(batch))
      modifies this`ticks, this`round, this`next, this`packetsSent, this`resting, this`wire, this`orderly
      ensures ticks >= old(ticks)
      ensures ok ==> Tracks(order, []) && round == old(round) && next == old(next)
      ensures ok ==> orderly == old(orderly) && resting == old(resting)
      ensures ok ==> wire == old(wire) + Tagged(round, Indexes(batch))
      ensures !ok ==> Rests() && !orderly
      ensures !ok ==> ticks > 0 && env.SendFails(ticks - 1)
    {
      ghost var before := State(order, Indexes(batch));
      var sent, done := HandOver(env, |batch|);
      if !done {
        Die(before, sent);
        return false;
      }
      packetsSent := Min(packetsSent + sent, U64_MAX);
      wire := before.Left(|batch|);
      assert Indexes(batch)[..|batch|] == Indexes(batch);
      Kept(plan, inv, orderly, before, Send);
      assert State(order, []) == After(plan, before, Send);
      return true;
    }

    /** Its loop around `sendmmsg`, which takes some of the remaining messages or fails. */
    method HandOver(env: Env, count: nat) returns (sent: nat, done: bool)
      modifies this`ticks
      ensures ticks >= old(ticks) && sent <= count
      ensures if done then sent == count else ticks > old(ticks) && env.SendFails(ticks - 1)
    {
      sent := 0;
      while sent < count
        invariant sent <= count && ticks >= old(ticks)
      {
        var failed, taken := env.SendFails(ticks), env.kernel(ticks);
        ticks := ticks + 1;
        if failed { return sent, false; }
        sent := sent + Max(1, Min(taken, count - sent));
      }
      done := true;
    }

    /** The process dies with `left` SYNs of its batch sent; the next one reads the checkpoint. */
    method Die(ghost before: Job, ghost left: nat)
      requires Shaped() && Status(orderly, before) in inv && left <= |before.batch|
      requires before.cells == buffers.Cells() && before.saved == saved && before.wire == wire
      requires saved.next <= |buffers.es|
      modifies this`round, this`next, this`packetsSent, this`resting, this`wire, this`orderly
      ensures Rests() && !orderly
    {
      Kept(plan, inv, orderly, before, Crash(left, None));
      CrashedJob(plan, before, left);
      round, next, packetsSent, resting := saved.round, saved.next, saved.packetsSent, false;
      wire := before.Left(left);
      orderly := false;
      assert State(next, []) == Job(before.cells, before.saved, false, [], before.saved, before.Left(left));
    }

    /** A look at the stop flag. */
    method Poll(env: Env, ghost order: nat) returns (stopping: bool)
      requires Shaped() && Tracks(order, [])
      modifies this`ticks
      ensures Tracks(order, []) && ticks == old(ticks) + 1 && stopping == env.Stop(old(ticks))
    {
      ghost var before := State(order, []);
      stopping := env.Stop(ticks);
      ticks := ticks + 1;
      assert State(order, []) == before;
    }

    /** The set accounts for everything that happened, but for a batch whose sending failed. */
    ghost predicate Accounted(moments: iset<Moment>, counted: multiset<Syn>, ok: bool)
      requires buffers.Valid()
      reads this`ticks, this`wire, this`late, this`calls, buffers`queue, buffers.Files()
    {
      Now().(wire := counted) in moments && (ok ==> counted == wire)
    }

    /** One round of `send_rounds`, from a position in the order to its end or to where the stop flag was seen. */
    method SendRound(env: Env, start: nat, ghost moments: iset<Moment>)
      returns (order: nat, outcome: Outcome, ghost counted: multiset<Syn>)
      requires Shaped() && Walks() && Tracks(start, []) && round < attempts && !resting
      requires Listening(env, buffers.es, moments) && Now() in moments
      modifies this`ticks, this`round, this`next, this`packetsSent, this`resting, this`late, this`calls, this`saved,
        this`wire,
        this`orderly, buffers`queue, buffers.Files()
      ensures !outcome.Failed? ==>
        Tracks(order, []) && round == old(round) && !resting && late == old(late) && orderly == old(orderly)
      ensures outcome.Finished? ==> order == |buffers.es|
      ensures outcome.Stopped? ==> env.Stop(ticks)
      ensures outcome.Failed? ==> Rests() && !orderly
      ensures outcome.Failed? ==> ticks > 0 && env.SendFails(ticks - 1)
      ensures Accounted(moments, counted, !outcome.Failed?)
    {
      order, outcome, counted := start, Finished, wire;
      while order < buffers.states.Length && outcome.Finished?
        invariant !outcome.Failed? ==>
          Tracks(order, []) && round == old(round) && !resting && late == old(late) && orderly == old(orderly)
        invariant outcome.Stopped? ==> env.Stop(ticks)
        invariant outcome.Failed? ==> Rests() && !orderly
        invariant outcome.Failed? ==> ticks > 0 && env.SendFails(ticks - 1)
        invariant Accounted(moments, counted, !outcome.Failed?)
        decreases |buffers.es| - order, outcome.Finished?, if env.Stop(ticks) then 0 else 1
      {
        order, outcome, counted := Turn(env, order, moments);
      }
    }

    /** One turn of its loop. */
    method Turn(env: Env, start: nat, ghost moments: iset<Moment>)
      returns (order: nat, outcome: Outcome, ghost counted: multiset<Syn>)
      requires Shaped() && Walks() && Tracks(start, []) && start < |buffers.es| && round < attempts && !resting
      requires Listening(env, buffers.es, moments) && Now() in moments
      modifies this`ticks, this`round, this`next, this`packetsSent, this`resting, this`late, this`calls, this`saved,
        this`wire,
        this`orderly, buffers`queue, buffers.Files()
      ensures !outcome.Failed? ==> start <= order && Tracks(order, [])
      ensures !outcome.Failed? ==> round == old(round) && !resting && late == old(late) && orderly == old(orderly)
      ensures outcome.Finished? ==> !env.Stop(old(ticks)) && (order == start ==> env.Stop(ticks))
      ensures outcome.Stopped? ==> order == start && env.Stop(ticks)
      ensures outcome.Failed? ==> order == start && Rests() && !orderly
      ensures outcome.Failed? ==> ticks > 0 && env.SendFails(ticks - 1)
      ensures Accounted(moments, counted, !outcome.Failed?)
    {
      ghost var begun := Now();
      var stopping := Poll(env, start);
      Waited(env, buffers.es, moments, begun, Now());
      if stopping { return start, Stopped, wire; }
      var ok: bool;
      order, ok, counted := SendSome(env, start, moments);
      if ok {
        outcome := Finished;
      } else {
        order, outcome := start, Failed;
      }
    }

    /** The body of its loop after the stop flag was seen clear; without progress the flag is set by now. */
    method SendSome(env: Env, start: nat, ghost moments: iset<Moment>)
      returns (order: nat, ok: bool, ghost counted: multiset<Syn>)
      requires Shaped() && Walks() && Tracks(start, []) && start < |buffers.es| && round < attempts && !resting
      requires Listening(env, buffers.es, moments) && Now() in moments
      modifies this`ticks, this`round, this`next, this`packetsSent, this`resting, this`late, this`calls, this`saved,
        this`wire,
        this`orderly, buffers`queue, buffers.Files()
      ensures ok ==>
        start <= order && Tracks(order, []) && round == old(round) && !resting && late == old(late)
        && orderly == old(orderly)
      ensures ok && order == start ==> env.Stop(ticks)
      ensures ok && order % 10_000 == 0 ==> Rests() && next == order
      ensures ok ==> calls == old(calls) + 1
      ensures !ok ==> Rests() && !orderly
      ensures !ok ==> ticks > 0 && env.SendFails(ticks - 1)
      ensures Accounted(moments, counted, ok)
    {
      ghost var begun, sent := Now(), [];
      order, ok, sent := SendPart(env, start);
      Waited(env, buffers.es, moments, begun, Now().(wire := begun.wire));
      if !ok {
        return order, ok, begun.wire;
      }
      ReceiveAfter(env, round + 1, order, begun.wire, sent, false, moments);
      counted := wire;
      CheckpointNowAndThen(order);
    }

    method CheckpointNowAndThen(order: nat)
      requires Shaped() && Tracks(order, []) && !resting
      modifies this`next, this`saved
      ensures Tracks(order, []) && Now() == old(Now())
      ensures order % 10_000 == 0 ==> Rests() && next == order
    {
      if order % CHECKPOINT_EVERY == 0 {
        Checkpoint(order);
      }
    }

    /** `receive_replies`, after a batch or late: everything captured is handled. */
    method ReceiveAfter(env: Env, attempt: nat, order: nat, ghost unsent: multiset<Syn>, ghost sent: seq<nat>,
        ghost isLate: bool, ghost moments: iset<Moment>)
      requires Shaped() && Tracks(order, []) && attempt == AttemptNow(plan, State(order, []))
      requires Listening(env, buffers.es, moments) && Now().(wire := unsent) in moments
      requires |sent| <= 96 && (isLate ==> sent == [])
      requires wire == unsent + if attempt > 0 then Tagged(attempt - 1, sent) else multiset{}
      modifies this`ticks, this`late, this`calls, buffers`queue, buffers.Files()
      ensures Tracks(order, []) && unchanged(`round, `next, `packetsSent, `saved, `orderly)
      ensures ticks == old(ticks) + 1 && Now() in moments && late == old(late) + if isLate then 1 else 0
      ensures calls == old(calls) + 1
    {
      ghost var found, reception := Now().(wire := unsent), Reception(isLate, sent, attempt, ticks, buffers.Cells());
      ReceiveOnce(env, attempt, order, isLate);
      Listened(env, buffers.es, moments, found, reception, Now());
    }

    /** One call of it, counted. */
    method ReceiveOnce(env: Env, attempt: nat, order: nat, ghost isLate: bool)
      requires Shaped() && Tracks(order, []) && attempt == AttemptNow(plan, State(order, []))
      modifies this`ticks, this`late, this`calls, buffers`queue, buffers.Files()
      ensures Tracks(order, []) && unchanged(`round, `next, `packetsSent, `saved, `orderly)
      ensures ticks == old(ticks) + 1 && calls == old(calls) + 1
      ensures late == old(late) + if isLate then 1 else 0
      ensures buffers.Cells()
        == Heed(env.run, buffers.es, old(buffers.Cells()), env.packets(old(ticks)), attempt, env.clock(old(ticks)))
      ensures buffers.queue == old(buffers.queue)
        + HandedAll(env.run, buffers.es, old(buffers.Cells()), env.packets(old(ticks)), attempt, env.clock(old(ticks)))
    {
      CountCall(order, isLate);
      Receive(env, attempt, order);
    }

    ghost method CountCall(order: nat, isLate: bool)
      requires Shaped() && Tracks(order, [])
      modifies this`late, this`calls
      ensures Tracks(order, []) && State(order, []) == old(State(order, []))
      ensures late == old(late) + (if isLate then 1 else 0) && calls == old(calls) + 1
    {
      var before := State(order, []);
      late, calls := late + (if isLate then 1 else 0), calls + 1;
      assert State(order, []) == before;
    }

    /** The first half of that body: a batch is prepared and sent. */
    method SendPart(env: Env, start: nat) returns (order: nat, ok: bool, ghost sent: seq<nat>)
      requires Shaped() && Walks() && Tracks(start, []) && start < |buffers.es| && round < attempts && !resting
      modifies this`ticks, this`round, this`next, this`packetsSent, this`resting, this`wire, this`orderly,
        buffers.sentTimes
      ensures ok ==>
        start <= order && Tracks(order, []) && round == old(round) && !resting && late == old(late)
        && orderly == old(orderly)
      ensures ok && order == start ==> env.Stop(ticks)
      ensures !ok ==> Rests() && !orderly
      ensures !ok ==> ticks > 0 && env.SendFails(ticks - 1)
      ensures Prepared(env, old(Now()), Now().(wire := old(wire)))
      ensures |sent| <= 96 && (ok ==> wire == old(wire) + Tagged(old(round), sent))
    {
      var batch;
      order, batch := PrepareBatch(env, start);
      ok, sent := true, Indexes(batch);
      assert batch == [] ==> sent == [];
      if batch != [] {
        ok := SendBatch(env, batch, order);
      }
    }

    /** `send_rounds`: the remaining rounds, until the last one is over, the stop flag is seen, or a send fails. */
    method SendRounds(env: Env, ghost moments: iset<Moment>) returns (ok: bool, ghost counted: multiset<Syn>)
      requires Shaped() && Walks() && Rests() && !resting
      requires Listening(env, buffers.es, moments) && Now() in moments
      modifies this`ticks, this`round, this`next, this`packetsSent, this`resting, this`late, this`calls, this`saved,
        this`wire,
        this`orderly, buffers`queue, buffers.Files()
      ensures Rests()
      ensures ok ==> orderly == old(orderly) && (round >= attempts || env.Stop(ticks))
      ensures ok ==> old(round) <= round && late == old(late) + Pauses(old(round), round)
      ensures !ok ==> !orderly
      ensures !ok ==> ticks > 0 && env.SendFails(ticks - 1)
      ensures Accounted(moments, counted, ok)
    {
      var current := round;
      counted := wire;
      while current < attempts
        invariant Rests() && round == current && orderly == old(orderly)
        invariant resting ==> current >= attempts
        invariant Accounted(moments, counted, true)
        invariant old(round) <= round && late == old(late) + Pauses(old(round), round)
      {
        var startOrder := if current == round then next else 0;
        var outcome;
        outcome, counted := OneRound(env, current, startOrder, moments);
        if outcome.Failed? { return false, counted; }
        if outcome.Stopped? { return true, counted; }
        current := current + 1;
      }
      ok := true;
    }

    /** The pauses between two rounds: one after each that ended but the last. */
    function Pauses(from: nat, to: nat): nat
      requires from <= to
    {
      to - from - if from < to && to >= attempts then 1 else 0
    }

    /** One turn of its loop: a round, and the pause after it unless it was the last. */
    method OneRound(env: Env, current: nat, startOrder: nat, ghost moments: iset<Moment>)
      returns (outcome: Outcome, ghost counted: multiset<Syn>)
      requires Shaped() && Walks() && Rests() && !resting
      requires current == round < attempts && startOrder == next
      requires Listening(env, buffers.es, moments) && Now() in moments
      modifies this`ticks, this`round, this`next, this`packetsSent, this`resting, this`late, this`calls, this`saved,
        this`wire,
        this`orderly, buffers`queue, buffers.Files()
      ensures Rests()
      ensures !outcome.Failed? ==> orderly == old(orderly)
      ensures outcome.Finished? ==> round == current + 1 && late == old(late) + if round < attempts then 1 else 0
      ensures outcome.Stopped? ==> round == current && late == old(late)
      ensures outcome.Stopped? ==> env.Stop(ticks)
      ensures outcome.Failed? ==> !orderly
      ensures outcome.Failed? ==> ticks > 0 && env.SendFails(ticks - 1)
      ensures Accounted(moments, counted, !outcome.Failed?)
    {
      ghost var before := State(next, []);
      round := current;
      assert State(startOrder, []) == before;
      var order;
      order, outcome, counted := SendRound(env, startOrder, moments);
      if outcome.Failed? { return; }
      if outcome.Stopped? {
        Checkpoint(order);
        return;
      }
      FinishRound(env, moments);
      counted := wire;
    }

    method FinishRound(env: Env, ghost moments: iset<Moment>)
      requires Shaped() && Tracks(|buffers.es|, []) && round < attempts && !resting
      requires Listening(env, buffers.es, moments) && Now() in moments
      modifies this`ticks, this`round, this`next, this`resting, this`late, this`calls, this`saved, buffers`queue,
        buffers.Files()
      ensures Rests() && round == old(round) + 1 && Now() in moments
      ensures late == old(late) + if round < attempts then 1 else 0
    {
      EndRound();
      if round < attempts {
        PauseBetweenRounds(env, moments);
      }
    }

    /** `pause_between_rounds`: what came in meanwhile counts for the round just over. */
    method PauseBetweenRounds(env: Env, ghost moments: iset<Moment>)
      requires Shaped() && Tracks(0, []) && saved == Meta(round, 0, packetsSent)
      requires next == 0 && resting && 0 < round < attempts
      requires Listening(env, buffers.es, moments) && Now() in moments
      modifies this`ticks, this`resting, this`late, this`calls, buffers`queue, buffers.Files()
      ensures Rests() && !resting && Now() in moments && late == old(late) + 1
    {
      ReceiveAfter(env, round, 0, wire, [], true, moments);
      Begin();
    }

    /** `meta.round = round + 1` and the checkpoint at position 0. */
    method EndRound()
      requires Shaped() && Tracks(|buffers.es|, []) && round < attempts && !resting
      modifies this`round, this`next, this`resting, this`saved
      ensures Tracks(0, []) && saved == Meta(round, next, packetsSent)
      ensures round == old(round) + 1 && next == 0 && resting
    {
      ghost var before := State(|buffers.es|, []);
      round := round + 1;
      next := 0;
      saved := Meta(round, 0, packetsSent);
      resting := true;
      Kept(plan, inv, orderly, before, NextRound);
      assert State(0, []) == After(plan, before, NextRound);
    }

    /** The pause is over. */
    ghost method Begin()
      requires Shaped() && Tracks(next, []) && saved == Meta(round, next, packetsSent)
      modifies this`resting
      ensures Rests() && !resting
    {
      var before := State(next, []);
      resting := false;
      Kept(plan, inv, orderly, before, Step.Begin);
      assert State(next, []) == After(plan, before, Step.Begin);
    }

    /** `current_attempt`. */
    function CurrentAttempt(): nat
      reads this`round
    {
      if round >= attempts then attempts else round + 1
    }

    /** `finish_scan`: late replies and the final checkpoint. */
    method FinishScan(env: Env, ghost moments: iset<Moment>) returns (completed: bool)
      requires Shaped() && Rests()
      requires Listening(env, buffers.es, moments) && Now() in moments
      modifies this`ticks, this`late, this`calls, this`next, this`saved, buffers`queue, buffers.Files()
      ensures Rests() && completed == (round >= attempts) && unchanged(`round, `orderly)
      ensures next == FinalIndex(completed, |buffers.es|, old(next))
      ensures ticks == old(ticks) + 1 && Now() in moments && late == old(late) + 1
    {
      ReceiveAfter(env, CurrentAttempt(), next, wire, [], true, moments);
      completed := round >= attempts;
      Close(FinalIndex(completed, buffers.states.Length, next));
    }

    method Close(final: nat)
      requires Shaped() && Tracks(next, []) && (resting ==> round >= attempts)
      requires final == FinalIndex(round >= attempts, |buffers.es|, next)
      modifies this`next, this`saved
      ensures Rests() && next == final
    {
      ghost var before := State(next, []);
      next := final;
      saved := Meta(round, next, packetsSent);
      Kept(plan, inv, orderly, before, Step.Close);
      assert State(next, []) == After(plan, before, Step.Close);
    }

    /** `run`: one process, from the resume pass to the final checkpoint; an error is a crash. */
    method RunScan(env: Env, ghost moments: iset<Moment>)
      returns (ok: bool, completed: bool, ghost counted: multiset<Syn>)
      requires Shaped() && Walks() && Rests()
      requires Listening(env, buffers.es, moments) && AfterResume() in moments
      modifies this`ticks, this`round, this`next, this`packetsSent, this`resting, this`late, this`calls, this`saved,
        this`wire,
        this`orderly, buffers`queue, buffers.Files()
      ensures Rests()
      ensures ok ==> orderly == old(orderly) && completed == (round >= attempts)
      ensures ok && !completed ==> env.stopAt.Some?
      ensures !ok ==> !orderly && !completed
      ensures !ok ==> ticks > 0 && env.SendFails(ticks - 1)
      ensures Accounted(moments, counted, ok)
      ensures ok ==> old(round) <= round && late == old(late) + Pauses(old(round), round) + 1
    {
      Resume();
      ok, counted := SendRounds(env, moments);
      completed := false;
      if ok {
        completed := FinishScan(env, moments);
        counted := wire;
      }
    }

    /**
     The same, told: after the resume pass, nothing happens but that batches are sent, each followed by a
     reception that handles every packet captured, in order and for the attempt of the batch.
     */
    method RunTold(env: Env)
      returns (ok: bool, completed: bool, ghost counted: multiset<Syn>, ghost story: seq<Reception>)
      requires Shaped() && Walks() && Rests()
      modifies this`ticks, this`round, this`next, this`packetsSent, this`resting, this`late, this`calls, this`saved,
        this`wire,
        this`orderly, buffers`queue, buffers.Files()
      ensures ok ==> counted == wire
      ensures Tells(env, buffers.es, story, old(AfterResume()), Now().(wire := counted))
    {
      ghost var begun := AfterResume();
      StoriesListen(env, buffers.es, begun);
      ok, completed, counted := RunScan(env, Stories(env, buffers.es, begun));
      story :| Tells(env, buffers.es, story, begun, Now().(wire := counted));
    }

    /** The moment the resume pass leaves: every open endpoint whose banner is not done is queued again. */
    ghost function AfterResume(): Moment
      requires buffers.Valid()
      reads this`ticks, this`wire, this`late, this`calls, buffers`queue, buffers.Files()
    {
      var cells := buffers.Cells();
      Moment(ticks, seq(|cells|, i requires 0 <= i < |cells| => cells[i].Resumed()),
             buffers.queue + ResumeTargets(cells, buffers.es), wire, late, calls)
    }

    method Resume()
      requires Shaped() && Rests()
      modifies this`resting, buffers`queue, buffers.banners
      ensures Rests() && !resting && Now() == old(AfterResume())
    {
      ghost var before := State(next, []);
      buffers.EnqueueResumeBanners();
      resting := false;
      Kept(plan, inv, orderly, before, Reopen);
      assert State(next, []) == After(plan, before, Reopen);
    }
  }

  /** How a round ended. */
  datatype Outcome = Finished | Stopped | Failed

  /* ----- the machine's results for the code ----- */

  /** A run of the machine leads here from `start`. */
  ghost predicate Reached(plan: Plan, start: Job, st: Status) {
    exists steps :: Leads(plan, start, steps, st)
  }

  ghost predicate Leads(plan: Plan, start: Job, steps: seq<Step>, st: Status) {
    Runs(plan, start, steps) && End(plan, start, steps) == st.job && (st.orderly ==> Orderly(steps))
  }

  ghost function Reachable(plan: Plan, start: Job): iset<Status> {
    iset st: Status | Reached(plan, start, st)
  }

  lemma LeadsOn(plan: Plan, start: Job, steps: seq<Step>, st: Status, s: Step)
    requires Leads(plan, start, steps, st) && Enabled(plan, st.job, s)
    ensures Leads(plan, start, steps + [s], Status(st.orderly && !s.Crash?, After(plan, st.job, s)))
  {
    RunsSnoc(plan, start, steps, s);
  }

  lemma ReachableIsInductive(plan: Plan, start: Job)
    ensures Inductive(plan, Reachable(plan, start))
    ensures Status(true, start) in Reachable(plan, start)
  {
    assert Leads(plan, start, [], Status(true, start));
    forall st, s | st in Reachable(plan, start) && Enabled(plan, st.job, s)
      ensures Reached(plan, start, Status(st.orderly && !s.Crash?, After(plan, st.job, s)))
    {
      var steps :| Leads(plan, start, steps, st);
      LeadsOn(plan, start, steps, st, s);
    }
  }

  /** In every round each endpoint was sent one SYN at most, and the counter counts them. */
  ghost predicate CountsAreExact(plan: Plan, j: Job) {
    && (forall r: nat, i: nat | r < plan.attempts && i < |plan.order| :: j.wire[Syn(r, i)] <= 1)
    && j.meta.packetsSent == Min(|j.wire|, 0xffff_ffff_ffff_ffff)
  }

  lemma OrderlyCounts(plan: Plan, start: Job, j: Job)
    requires plan.Valid() && Fresh(plan, start) && Status(true, j) in Reachable(plan, start)
    ensures CountsAreExact(plan, j)
  {
    var steps :| Leads(plan, start, steps, Status(true, j));
    forall r: nat, i: nat | r < plan.attempts && i < |plan.order| ensures j.wire[Syn(r, i)] <= 1 {
      AtMostOncePerRound(plan, start, steps, r, i);
    }
    PacketsSentRun(plan, start, steps);
  }

  lemma SilentCounts(plan: Plan, start: Job, st: Status, i: nat)
    requires plan.Valid() && Fresh(plan, start) && st in Reachable(plan, start)
    requires Completed(plan, st.job) && i < |plan.order| && Silent(st.job, i)
    ensures SynsTo(st.job.wire, i, plan.attempts) >= plan.attempts
    ensures st.orderly ==> SynsTo(st.job.wire, i, plan.attempts) == plan.attempts
  {
    var steps :| Leads(plan, start, steps, st);
    SilentAttempts(plan, start, steps, i);
  }

  /** Every endpoint that answered holds one of the configured attempts. */
  ghost predicate AttemptsAreStored(plan: Plan, j: Job) {
    forall i | 0 <= i < |j.cells| :: Silent(j, i) || AttemptStored(j.cells[i], plan.attempts)
  }

  lemma AnsweredAttempts(plan: Plan, start: Job, st: Status)
    requires Fresh(plan, start) && st in Reachable(plan, start) && plan.attempts >= 1
    requires forall i | 0 <= i < |start.cells| :: start.cells[i].Blank()
    ensures AttemptsAreStored(plan, st.job)
  {
    var steps :| Leads(plan, start, steps, st);
    CellsKeepLength(plan, start, steps);
    forall i | 0 <= i < |st.job.cells| ensures Silent(st.job, i) || AttemptStored(st.job.cells[i], plan.attempts) {
      OnlyConfiguredAttempts(plan, start, steps, i);
    }
  }

  lemma {:induction false} CellsKeepLength(plan: Plan, j: Job, steps: seq<Step>)
    requires Runs(plan, j, steps)
    ensures |End(plan, j, steps).cells| == |j.cells|
    decreases |steps|
  {
    if steps != [] { CellsKeepLength(plan, After(plan, j, steps[0]), steps[1..]); }
  }

  predicate NeverFails(env: Env) { env.failing == {} }

  predicate NeverStops(env: Env) { env.stopAt == None }

  /** One process after another, each stopped, crashed or done, until one completes the scan. */
  method RunProcesses(scan: SynScan, processes: seq<Env>) returns (completed: bool)
    requires scan.Shaped() && scan.Walks() && scan.Rests()
    modifies scan, scan.buffers`queue, scan.buffers.Files()
    ensures scan.Rests() && (completed ==> scan.round >= scan.attempts)
    ensures old(scan.orderly) && (forall e | e in processes :: NeverFails(e)) ==> scan.orderly
    ensures (exists e :: e in processes && NeverFails(e) && NeverStops(e)) ==> completed
  {
    completed := false;
    for i := 0 to |processes|
      invariant scan.Rests() && !completed
      invariant old(scan.orderly) && (forall e | e in processes :: NeverFails(e)) ==> scan.orderly
      invariant forall k | 0 <= k < i :: !(NeverFails(processes[k]) && NeverStops(processes[k]))
    {
      assert processes[i] in processes;
      EveryMoment(processes[i], scan.buffers.es);
      var _, done, _ := scan.RunScan(processes[i], EVERY_MOMENT);
      if done { return true; }
    }
  }

  /** What holds of a scan whose every state a run of the machine leads to. */
  lemma ScanCounts(scan: SynScan, start: Job)
    requires scan.buffers.Valid() && scan.Rests() && scan.plan.Valid() && Fresh(scan.plan, start)
    requires scan.inv == Reachable(scan.plan, start)
    ensures scan.orderly ==> CountsAreExact(scan.plan, scan.State(scan.next, []))
    ensures scan.plan.attempts >= 1 && (forall c | c in start.cells :: c.Blank()) ==>
      AttemptsAreStored(scan.plan, scan.State(scan.next, []))
    ensures scan.round >= scan.plan.attempts ==>
      forall i | 0 <= i < |scan.plan.order| && Silent(scan.State(scan.next, []), i) ::
      && SynsTo(scan.wire, i, scan.plan.attempts) >= scan.plan.attempts
      && (scan.orderly ==> SynsTo(scan.wire, i, scan.plan.attempts) == scan.plan.attempts)
  {
    var plan, st := scan.plan, Status(scan.orderly, scan.State(scan.next, []));
    if scan.orderly { OrderlyCounts(plan, start, st.job); }
    if plan.attempts >= 1 && forall c | c in start.cells :: c.Blank() { AnsweredAttempts(plan, start, st); }
    if scan.round >= plan.attempts {
      forall i | 0 <= i < |plan.order| && Silent(st.job, i)
        ensures SynsTo(scan.wire, i, plan.attempts) >= plan.attempts
        ensures scan.orderly ==> SynsTo(scan.wire, i, plan.attempts) == plan.attempts
      {
        SilentCounts(plan, start, st, i);
      }
    }
  }

  /**
   A new job, scanned across any number of processes.  Without failing sends its counts are exact, and one
   process that is neither stopped nor failing completes it.
   */
  method ScanWithRestarts(perm: Permutation, attempts: nat, files: ScanBuffers, processes: seq<Env>)
    returns (scan: SynScan, completed: bool)
    requires files.Valid() && perm.Valid() && perm.n == |files.es|
    modifies files`queue, files.Files()
    ensures scan.buffers == files && scan.Rests() && IsPlan(perm, attempts, scan.plan)
    ensures (forall e | e in processes :: NeverFails(e)) ==> scan.orderly
    ensures (exists e :: e in processes && NeverFails(e) && NeverStops(e)) ==> completed
    ensures scan.orderly ==> CountsAreExact(scan.plan, scan.State(scan.next, []))
    ensures attempts >= 1 && (forall c | c in old(files.Cells()) :: c.Blank()) ==>
      AttemptsAreStored(scan.plan, scan.State(scan.next, []))
    ensures completed ==> forall i | 0 <= i < perm.n && Silent(scan.State(scan.next, []), i) ::
      SynsTo(scan.wire, i, attempts) >= attempts && (scan.orderly ==> SynsTo(scan.wire, i, attempts) == attempts)
  {
    ghost var plan := Plan(Order(perm), attempts);
    PlanOf(perm, attempts);
    scan, completed := ScanPlanned(perm, attempts, files, processes, plan);
  }

  method ScanPlanned(perm: Permutation, attempts: nat, files: ScanBuffers, processes: seq<Env>, ghost plan: Plan)
    returns (scan: SynScan, completed: bool)
    requires files.Valid() && perm.n == |files.es| && IsPlan(perm, attempts, plan)
    modifies files`queue, files.Files()
    ensures scan.buffers == files && scan.Rests() && scan.plan == plan
    ensures (forall e | e in processes :: NeverFails(e)) ==> scan.orderly
    ensures (exists e :: e in processes && NeverFails(e) && NeverStops(e)) ==> completed
    ensures scan.orderly ==> CountsAreExact(plan, scan.State(scan.next, []))
    ensures attempts >= 1 && (forall c | c in old(files.Cells()) :: c.Blank()) ==>
      AttemptsAreStored(plan, scan.State(scan.next, []))
    ensures completed ==> forall i | 0 <= i < perm.n && Silent(scan.State(scan.next, []), i) ::
      SynsTo(scan.wire, i, attempts) >= attempts && (scan.orderly ==> SynsTo(scan.wire, i, attempts) == attempts)
  {
    ghost var start := FreshJob(files.Cells());
    ReachableIsInductive(plan, start);
    scan := new SynScan(perm, attempts, files, plan, start, Reachable(plan, start));
    completed := RunProcesses(scan, processes);
    ScanCounts(scan, start);
  }
}
