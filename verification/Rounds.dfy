/**
 The rounds of a live scan as a state machine: SYN batches, replies, checkpoints, graceful stops,
 crashes and restarts, with the wire log they leave.
 */
module Rounds {
  import opened Words
  import opened CycleWalks
  import opened Results
  import opened Replies

  const U64_MAX: nat := 0xffff_ffff_ffff_ffff

  /** What a job fixes: the visiting order of its endpoints and the number of rounds. */
  datatype Plan = Plan(order: seq<nat>, attempts: nat) {
    ghost predicate Valid() { IsOrder(order, |order|) }
  }

  /** A SYN on the wire. */
  datatype Syn = Syn(round: nat, index: nat)

  /** The position `checkpoint.json` holds. */
  datatype Meta = Meta(round: nat, next: nat, packetsSent: nat)

  /**
   A job: the mapped cells, the position in memory, whether a round has ended and the next one not begun, SYNs
   prepared but not yet handed to the kernel, the checkpoint on disk, and everything ever sent.
   */
  datatype Job = Job(
    cells: seq<Cell>, meta: Meta, resting: bool, batch: seq<nat>, saved: Meta, wire: multiset<Syn>)
  {
    /** The walk has passed position `k` of round `r`. */
    predicate Passed(r: nat, k: nat) {
      r < meta.round || (r == meta.round && k < meta.next)
    }

    predicate PassedOnDisk(r: nat, k: nat) {
      r < saved.round || (r == saved.round && k < saved.next)
    }

    /** SYNs of round `r` to endpoint `i`, sent or waiting. */
    function Issued(r: nat, i: nat): nat {
      wire[Syn(r, i)] + if r == meta.round then multiset(batch)[i] else 0
    }

    function WithCell(i: nat, c: Cell): Job
      requires i < |cells|
    {
      this.(cells := cells[i := c])
    }

    function At(m: Meta): Job { this.(meta := m) }

    function Saved(m: Meta): Job { this.(meta := m, saved := m) }

    /** The first `k` SYNs of the batch leave. */
    function Left(k: nat): multiset<Syn>
      requires k <= |batch|
    {
      wire + Tagged(meta.round, batch[..k])
    }

    /** The resume pass of a new process. */
    function Reopened(): Job {
      this.(cells := seq(|cells|, i requires 0 <= i < |cells| => cells[i].Resumed()), resting := false)
    }
  }

  function Tagged(round: nat, batch: seq<nat>): (m: multiset<Syn>)
    ensures |m| == |batch|
  {
    if batch == [] then multiset{} else Tagged(round, batch[..|batch| - 1]) + multiset{Syn(round, batch[|batch| - 1])}
  }

  lemma {:induction false} TaggedCount(round: nat, batch: seq<nat>, r: nat, i: nat)
    ensures Tagged(round, batch)[Syn(r, i)] == if r == round then multiset(batch)[i] else 0
  {
    if batch != [] {
      TaggedCount(round, batch[..|batch| - 1], r, i);
      assert batch == batch[..|batch| - 1] + [batch[|batch| - 1]];
    }
  }

  datatype Step =
    | Skip
    | Prepare(at: u32)
    | Send
    | Hear(index: nat, reply: Reply)
    | Inspect(index: nat)
    | Save
    | NextRound
    | Begin
    | Close
    | Reopen
    | Crash(left: nat, torn: Option<(nat, Reply)>)

  predicate Visiting(plan: Plan, j: Job) {
    !j.resting && j.meta.round < plan.attempts && j.meta.next < |plan.order| && plan.order[j.meta.next] < |j.cells|
  }

  /**
   The attempt a reply is counted for: the round under way, from one; the round just over while the process
   pauses after it; the last one once all rounds are over.
   */
  function AttemptNow(plan: Plan, j: Job): nat {
    if j.meta.round >= plan.attempts then plan.attempts
    else if j.resting then j.meta.round
    else j.meta.round + 1
  }

  /** A reply can be heard, under that attempt; nothing is captured while SYNs wait. */
  predicate Audible(plan: Plan, j: Job, i: nat, reply: Reply) {
    i < |j.cells| && reply.state != NoResponse && j.batch == [] && reply.attempt == AttemptNow(plan, j)
  }

  predicate Enabled(plan: Plan, j: Job, s: Step) {
    match s
    case Skip => Visiting(plan, j) && j.cells[plan.order[j.meta.next]].State() != NoResponse
    case Prepare(_) => Visiting(plan, j) && j.cells[plan.order[j.meta.next]].State() == NoResponse
    case Send => true
    case Hear(i, reply) => Audible(plan, j, i, reply)
    case Inspect(i) => i < |j.cells| && j.cells[i].banner == BANNER_QUEUED
    case Save => j.batch == []
    case NextRound => !j.resting && j.meta.round < plan.attempts && j.meta.next == |plan.order| && j.batch == []
    case Begin => true
    case Close => j.batch == []
    // a process starts from the checkpoint; the one before it saved its position or crashed
    case Reopen => j.batch == [] && j.saved == j.meta
    case Crash(left, torn) =>
      && left <= |j.batch|
      && (torn.Some? ==> Audible(plan, j, torn.value.0, torn.value.1))
  }

  /** `final_checkpoint_index`. */
  function FinalIndex(completed: bool, targetCount: nat, next: nat): nat {
    if completed then targetCount else next
  }

  function After(plan: Plan, j: Job, s: Step): Job
    requires Enabled(plan, j, s)
  {
    var m := j.meta;
    match s
    case Skip => j.At(m.(next := m.next + 1))
    case Prepare(at) =>
      var i := plan.order[m.next];
      j.WithCell(i, Apply(j.cells[i], Probed(at))).(batch := j.batch + [i], meta := m.(next := m.next + 1))
    case Send =>
      j.(wire := j.Left(|j.batch|), batch := [],
         meta := m.(packetsSent := Min(m.packetsSent + |j.batch|, U64_MAX)))
    case Hear(i, reply) => j.WithCell(i, Apply(j.cells[i], Heard(reply)))
    case Inspect(i) => j.WithCell(i, Apply(j.cells[i], Inspected))
    case Save => j.Saved(m)
    case NextRound => j.Saved(Meta(m.round + 1, 0, m.packetsSent)).(resting := true)
    case Begin => j.(resting := false)
    case Close => j.Saved(m.(next := FinalIndex(m.round >= plan.attempts, |plan.order|, m.next)))
    case Reopen => j.Reopened()
    case Crash(left, torn) =>
      var k := if torn.Some? then j.WithCell(torn.value.0, j.cells[torn.value.0].Observed(torn.value.1)) else j;
      k.(wire := j.Left(left), meta := j.saved, resting := false, batch := [])
  }

  predicate Runs(plan: Plan, j: Job, steps: seq<Step>)
    decreases |steps|
  {
    steps == [] || (Enabled(plan, j, steps[0]) && Runs(plan, After(plan, j, steps[0]), steps[1..]))
  }

  function End(plan: Plan, j: Job, steps: seq<Step>): Job
    requires Runs(plan, j, steps)
    decreases |steps|
  {
    if steps == [] then j else End(plan, After(plan, j, steps[0]), steps[1..])
  }

  /** A job as `create_shard` leaves it. */
  predicate Fresh(plan: Plan, j: Job) {
    && |j.cells| == |plan.order|
    && j.meta == Meta(0, 0, 0) && j.saved == j.meta
    && !j.resting && j.batch == [] && j.wire == multiset{}
  }

  /* ----- what every step keeps ----- */

  /** No reply was ever seen from endpoint `i`. */
  predicate Silent(j: Job, i: nat) {
    i < |j.cells| && j.cells[i].State() == NoResponse
  }

  /** A silent endpoint passed by the walk was probed, or is about to be. */
  predicate Covered(plan: Plan, j: Job, r: nat, k: nat)
    requires k < |plan.order|
  {
    Silent(j, plan.order[k]) ==>
      && (j.Passed(r, k) ==> j.Issued(r, plan.order[k]) >= 1)
      && (j.PassedOnDisk(r, k) ==> j.wire[Syn(r, plan.order[k])] >= 1)
  }

  /** At most one SYN per round and endpoint, none ahead of the walk. */
  predicate Single(plan: Plan, j: Job, r: nat, k: nat)
    requires k < |plan.order|
  {
    j.Issued(r, plan.order[k]) <= if j.Passed(r, k) then 1 else 0
  }

  /** A reply never silences an endpoint. */
  lemma NeverSilenced(c: Cell, e: Event)
    requires EventOk(c, e) && Apply(c, e).State() == NoResponse
    ensures c.State() == NoResponse
  {
    if e.Heard? { StateOfEncoded(e.reply.state, e.reply.attempt); }
  }

  /** Whoever answered is not silent. */
  lemma ObservedIsHeard(c: Cell, r: Reply)
    requires r.state != NoResponse
    ensures c.Observed(r).State() != NoResponse
  {
    StateOfEncoded(r.state, r.attempt);
  }

  lemma SilentBefore(plan: Plan, j: Job, s: Step, i: nat)
    requires Enabled(plan, j, s) && Silent(After(plan, j, s), i)
    ensures Silent(j, i)
  {
    match s
    case Hear(h, reply) => if h == i { NeverSilenced(j.cells[i], Heard(reply)); }
    case Crash(_, torn) => if torn.Some? && torn.value.0 == i { ObservedIsHeard(j.cells[i], torn.value.1); }
    case _ =>
  }

  lemma IssuedAfter(plan: Plan, j: Job, s: Step, r: nat, i: nat)
    requires Enabled(plan, j, s) && !s.Crash?
    ensures var t := After(plan, j, s);
      && t.Issued(r, i)
          == j.Issued(r, i) + (if s.Prepare? && r == j.meta.round && plan.order[j.meta.next] == i then 1 else 0)
      && t.wire[Syn(r, i)] >= j.wire[Syn(r, i)]
  {
    if s.Send? {
      assert j.batch[..|j.batch|] == j.batch;
      TaggedCount(j.meta.round, j.batch, r, i);
    }
  }

  lemma PassedAfter(plan: Plan, j: Job, s: Step, r: nat, k: nat)
    requires Enabled(plan, j, s) && !s.Crash? && k < |plan.order| && r < plan.attempts
    ensures After(plan, j, s).Passed(r, k) <==>
      j.Passed(r, k) || ((s.Skip? || s.Prepare?) && r == j.meta.round && k == j.meta.next)
  {
  }

  lemma DiskAfter(plan: Plan, j: Job, s: Step, r: nat, k: nat)
    requires Enabled(plan, j, s) && !s.Crash? && k < |plan.order|
    ensures var t := After(plan, j, s);
      t.PassedOnDisk(r, k) ==> j.PassedOnDisk(r, k) || (t.Passed(r, k) && t.batch == [])
  {
  }

  lemma CoveredStep(plan: Plan, j: Job, s: Step, r: nat, k: nat)
    requires plan.Valid() && Enabled(plan, j, s) && r < plan.attempts && k < |plan.order| && Covered(plan, j, r, k)
    ensures Covered(plan, After(plan, j, s), r, k)
  {
    var t, i := After(plan, j, s), plan.order[k];
    if Silent(t, i) {
      SilentBefore(plan, j, s, i);
      if !s.Crash? {
        IssuedAfter(plan, j, s, r, i);
        PassedAfter(plan, j, s, r, k);
        DiskAfter(plan, j, s, r, k);
        assert t.batch == [] ==> t.Issued(r, i) == t.wire[Syn(r, i)];
      }
    }
  }

  lemma SingleStep(plan: Plan, j: Job, s: Step, r: nat, k: nat)
    requires plan.Valid() && Enabled(plan, j, s) && !s.Crash? && r < plan.attempts && k < |plan.order|
      && Single(plan, j, r, k)
    ensures Single(plan, After(plan, j, s), r, k)
  {
    IssuedAfter(plan, j, s, r, plan.order[k]);
    PassedAfter(plan, j, s, r, k);
  }

  predicate Orderly(steps: seq<Step>) {
    forall i | 0 <= i < |steps| :: !steps[i].Crash?
  }

  lemma {:induction false} CoveredRun(plan: Plan, j: Job, steps: seq<Step>, r: nat, k: nat)
    requires plan.Valid() && Runs(plan, j, steps) && r < plan.attempts && k < |plan.order| && Covered(plan, j, r, k)
    ensures Covered(plan, End(plan, j, steps), r, k)
    decreases |steps|
  {
    if steps != [] {
      CoveredStep(plan, j, steps[0], r, k);
      CoveredRun(plan, After(plan, j, steps[0]), steps[1..], r, k);
    }
  }

  lemma {:induction false} SingleRun(plan: Plan, j: Job, steps: seq<Step>, r: nat, k: nat)
    requires plan.Valid() && Runs(plan, j, steps) && Orderly(steps) && r < plan.attempts && k < |plan.order|
      && Single(plan, j, r, k)
    ensures Single(plan, End(plan, j, steps), r, k)
    decreases |steps|
  {
    if steps != [] {
      SingleStep(plan, j, steps[0], r, k);
      SingleRun(plan, After(plan, j, steps[0]), steps[1..], r, k);
    }
  }

  /* ----- the main results ----- */

  predicate Completed(plan: Plan, j: Job) {
    j.meta.round >= plan.attempts && j.batch == []
  }

  /** Whatever crashes and restarts happen, a completed scan probed every silent endpoint in every round. */
  lemma SilentProbedEveryRound(plan: Plan, start: Job, steps: seq<Step>, r: nat, i: nat)
    requires plan.Valid() && Fresh(plan, start) && Runs(plan, start, steps)
    requires Completed(plan, End(plan, start, steps)) && r < plan.attempts && i < |plan.order|
    requires Silent(End(plan, start, steps), i)
    ensures End(plan, start, steps).wire[Syn(r, i)] >= 1
  {
    assert i in plan.order;
    var k :| 0 <= k < |plan.order| && plan.order[k] == i;
    CoveredRun(plan, start, steps, r, k);
  }

  /** Without crashes, however often the scan stops and resumes, no endpoint gets two SYNs in a round. */
  lemma AtMostOncePerRound(plan: Plan, start: Job, steps: seq<Step>, r: nat, i: nat)
    requires plan.Valid() && Fresh(plan, start) && Runs(plan, start, steps) && Orderly(steps)
    requires r < plan.attempts && i < |plan.order|
    ensures End(plan, start, steps).wire[Syn(r, i)] <= 1
  {
    assert i in plan.order;
    var k :| 0 <= k < |plan.order| && plan.order[k] == i;
    SingleRun(plan, start, steps, r, k);
  }

  /** SYNs endpoint `i` was sent in the first `rounds` rounds. */
  function SynsTo(wire: multiset<Syn>, i: nat, rounds: nat): nat {
    if rounds == 0 then 0 else SynsTo(wire, i, rounds - 1) + wire[Syn(rounds - 1, i)]
  }

  lemma {:induction false} SynsAtLeast(wire: multiset<Syn>, i: nat, rounds: nat)
    requires forall r: nat | r < rounds :: wire[Syn(r, i)] >= 1
    ensures SynsTo(wire, i, rounds) >= rounds
  {
    if rounds > 0 { SynsAtLeast(wire, i, rounds - 1); }
  }

  lemma {:induction false} SynsAtMost(wire: multiset<Syn>, i: nat, rounds: nat)
    requires forall r: nat | r < rounds :: wire[Syn(r, i)] <= 1
    ensures SynsTo(wire, i, rounds) <= rounds
  {
    if rounds > 0 { SynsAtMost(wire, i, rounds - 1); }
  }

  /**
   The attempts `synthesize_missing_results` writes for a silent endpoint are the SYNs it was sent:
   exactly in a run without crashes, and no more than that in any run.
   */
  lemma SilentAttempts(plan: Plan, start: Job, steps: seq<Step>, i: nat)
    requires plan.Valid() && Fresh(plan, start) && Runs(plan, start, steps) && i < |plan.order|
    requires Completed(plan, End(plan, start, steps)) && Silent(End(plan, start, steps), i)
    ensures SynsTo(End(plan, start, steps).wire, i, plan.attempts) >= plan.attempts
    ensures Orderly(steps) ==> SynsTo(End(plan, start, steps).wire, i, plan.attempts) == plan.attempts
  {
    var wire := End(plan, start, steps).wire;
    forall r: nat | r < plan.attempts ensures wire[Syn(r, i)] >= 1 {
      SilentProbedEveryRound(plan, start, steps, r, i);
    }
    SynsAtLeast(wire, i, plan.attempts);
    if Orderly(steps) {
      forall r: nat | r < plan.attempts ensures wire[Syn(r, i)] <= 1 {
        AtMostOncePerRound(plan, start, steps, r, i);
      }
      SynsAtMost(wire, i, plan.attempts);
    }
  }

  /** Without crashes `packets_sent` is the length of the wire log, up to the width of the counter. */
  lemma {:induction false} PacketsSentRun(plan: Plan, j: Job, steps: seq<Step>)
    requires Runs(plan, j, steps) && Orderly(steps) && j.meta.packetsSent == Min(|j.wire|, 0xffff_ffff_ffff_ffff)
    ensures End(plan, j, steps).meta.packetsSent == Min(|End(plan, j, steps).wire|, 0xffff_ffff_ffff_ffff)
    decreases |steps|
  {
    if steps != [] {
      assert j.batch[..|j.batch|] == j.batch;
      PacketsSentRun(plan, After(plan, j, steps[0]), steps[1..]);
    }
  }

  /** Nothing is sent outside the configured rounds. */
  predicate WithinRounds(plan: Plan, j: Job) {
    (forall s | s in j.wire :: s.round < plan.attempts) && (j.batch != [] ==> j.meta.round < plan.attempts)
  }

  lemma {:induction false} TaggedRounds(round: nat, batch: seq<nat>)
    ensures forall s | s in Tagged(round, batch) :: s.round == round
    ensures batch == [] ==> Tagged(round, batch) == multiset{}
  {
    if batch != [] { TaggedRounds(round, batch[..|batch| - 1]); }
  }

  lemma {:induction false} WithinRoundsRun(plan: Plan, j: Job, steps: seq<Step>)
    requires Runs(plan, j, steps) && WithinRounds(plan, j)
    ensures WithinRounds(plan, End(plan, j, steps))
    decreases |steps|
  {
    if steps != [] {
      WithinRoundsStep(plan, j, steps[0]);
      WithinRoundsRun(plan, After(plan, j, steps[0]), steps[1..]);
    }
  }

  lemma WithinRoundsStep(plan: Plan, j: Job, s: Step)
    requires Enabled(plan, j, s) && WithinRounds(plan, j)
    ensures WithinRounds(plan, After(plan, j, s))
  {
    TaggedRounds(j.meta.round, j.batch[..|j.batch|]);
    if s.Crash? { TaggedRounds(j.meta.round, j.batch[..s.left]); }
  }

  /* ----- each endpoint's cell follows its own events ----- */

  /** What a step is to endpoint `i`. */
  function EventsAt(plan: Plan, j: Job, s: Step, i: nat): seq<Event>
    requires Enabled(plan, j, s)
  {
    match s
    case Prepare(at) => if plan.order[j.meta.next] == i then [Probed(at)] else []
    case Hear(h, reply) => if h == i then [Heard(reply)] else []
    case Inspect(h) => if h == i then [Inspected] else []
    case Reopen => [Restarted]
    case Crash(_, torn) => if torn.Some? && torn.value.0 == i then [Torn(torn.value.1)] else []
    case _ => []
  }

  function EventsOf(plan: Plan, j: Job, steps: seq<Step>, i: nat): seq<Event>
    requires Runs(plan, j, steps)
    decreases |steps|
  {
    if steps == [] then [] else EventsAt(plan, j, steps[0], i) + EventsOf(plan, After(plan, j, steps[0]), steps[1..], i)
  }

  lemma FinalOfOne(c: Cell, e: Event)
    ensures Final(c, []) == c && Final(c, [e]) == Apply(c, e)
    ensures EventsOk(c, [e]) <==> EventOk(c, e)
  {
    assert [e][..0] == [];
  }

  lemma CellAfter(plan: Plan, j: Job, s: Step, i: nat)
    requires Enabled(plan, j, s) && i < |j.cells|
    ensures |After(plan, j, s).cells| == |j.cells|
    ensures EventsOk(j.cells[i], EventsAt(plan, j, s, i))
    ensures After(plan, j, s).cells[i] == Final(j.cells[i], EventsAt(plan, j, s, i))
  {
    var es := EventsAt(plan, j, s, i);
    if |es| == 1 {
      assert es == [es[0]];
      FinalOfOne(j.cells[i], es[0]);
    }
  }

  lemma {:induction false} EventsOkConcat(c: Cell, a: seq<Event>, b: seq<Event>)
    requires EventsOk(c, a) && EventsOk(Final(c, a), b)
    ensures EventsOk(c, a + b)
  {
    if b == [] {
      assert a + b == a;
    } else {
      EventsOkConcat(c, a, b[..|b| - 1]);
      assert (a + b)[..|a + b| - 1] == a + b[..|b| - 1];
      FinalConcat(c, a, b[..|b| - 1]);
    }
  }

  /** So everything proved about one endpoint's events holds for every endpoint in every run. */
  lemma {:induction false} CellFollowsEvents(plan: Plan, j: Job, steps: seq<Step>, i: nat)
    requires Runs(plan, j, steps) && i < |j.cells|
    ensures |End(plan, j, steps).cells| == |j.cells|
    ensures EventsOk(j.cells[i], EventsOf(plan, j, steps, i))
    ensures End(plan, j, steps).cells[i] == Final(j.cells[i], EventsOf(plan, j, steps, i))
    decreases |steps|
  {
    if steps != [] {
      var t, es := After(plan, j, steps[0]), EventsAt(plan, j, steps[0], i);
      CellAfter(plan, j, steps[0], i);
      CellFollowsEvents(plan, t, steps[1..], i);
      var rest := EventsOf(plan, t, steps[1..], i);
      FinalConcat(j.cells[i], es, rest);
      EventsOkConcat(j.cells[i], es, rest);
    }
  }

  /* ----- the attempts replies are counted for ----- */

  /** Where a job can stand: within the rounds, and at the start of one while the process pauses. */
  predicate Placed(plan: Plan, j: Job) {
    && j.meta.round <= plan.attempts && j.saved.round <= plan.attempts
    && (j.resting ==> j.meta.round >= 1)
    && (j.resting && j.meta.round < plan.attempts ==> j.meta.next == 0)
  }

  lemma PlacedStep(plan: Plan, j: Job, s: Step)
    requires Enabled(plan, j, s) && Placed(plan, j)
    ensures Placed(plan, After(plan, j, s))
  {
  }

  predicate InRange(plan: Plan, reply: Reply) {
    1 <= reply.attempt <= plan.attempts
  }

  lemma HeardInRange(plan: Plan, j: Job, s: Step, i: nat)
    requires Enabled(plan, j, s) && Placed(plan, j) && plan.attempts >= 1
    ensures forall e | e in EventsAt(plan, j, s, i) && Answers(e) :: InRange(plan, e.reply)
  {
  }

  lemma {:induction false} EventsInRange(plan: Plan, j: Job, steps: seq<Step>, i: nat)
    requires Runs(plan, j, steps) && Placed(plan, j) && plan.attempts >= 1
    ensures forall e | e in EventsOf(plan, j, steps, i) && Answers(e) :: InRange(plan, e.reply)
    decreases |steps|
  {
    if steps != [] {
      PlacedStep(plan, j, steps[0]);
      HeardInRange(plan, j, steps[0], i);
      EventsInRange(plan, After(plan, j, steps[0]), steps[1..], i);
    }
  }

  lemma {:induction false} RepliesInRange(plan: Plan, es: seq<Event>)
    requires forall e | e in es && Answers(e) :: InRange(plan, e.reply)
    ensures forall k | 0 <= k < |Heards(es)| :: InRange(plan, Heards(es)[k])
  {
    if es != [] {
      var front := es[..|es| - 1];
      assert es[|es| - 1] in es && forall e | e in front :: e in es;
      RepliesInRange(plan, front);
    }
  }

  /** In every run, crashes included, every reply is counted for one of the configured attempts. */
  lemma AttemptsInRange(plan: Plan, start: Job, steps: seq<Step>, i: nat)
    requires Fresh(plan, start) && Runs(plan, start, steps) && plan.attempts >= 1
    ensures forall k | 0 <= k < |Heards(EventsOf(plan, start, steps, i))| ::
      1 <= Heards(EventsOf(plan, start, steps, i))[k].attempt <= plan.attempts
  {
    EventsInRange(plan, start, steps, i);
    RepliesInRange(plan, EventsOf(plan, start, steps, i));
  }

  predicate AttemptStored(c: Cell, attempts: nat) {
    var decoded := DecodeStateByte(c.state);
    decoded.Ok? && 1 <= decoded.value.1 <= attempts
  }

  /** Nor is any other ever stored: an endpoint is silent, or its byte holds one of the configured attempts. */
  lemma OnlyConfiguredAttempts(plan: Plan, start: Job, steps: seq<Step>, i: nat)
    requires Fresh(plan, start) && Runs(plan, start, steps) && plan.attempts >= 1
    requires i < |start.cells| && start.cells[i].Blank()
    ensures |End(plan, start, steps).cells| == |start.cells|
    ensures Silent(End(plan, start, steps), i) || AttemptStored(End(plan, start, steps).cells[i], plan.attempts)
  {
    var es := EventsOf(plan, start, steps, i);
    CellFollowsEvents(plan, start, steps, i);
    if Heards(es) == [] {
      StateIsBest(start.cells[i], es);
    } else {
      var k := StateIsFirstArrival(start.cells[i], es);
      AttemptsInRange(plan, start, steps, i);
      assert 1 <= Heards(es)[k].attempt <= plan.attempts;
    }
  }

  /** Position `k` was probed as often as the walk has passed it, as long as its endpoint is silent. */
  ghost predicate Counted(plan: Plan, j: Job, k: nat) {
    && k < |plan.order| && Placed(plan, j)
    && (forall r: nat | r < plan.attempts :: Covered(plan, j, r, k))
    && (forall r: nat | r < plan.attempts :: Single(plan, j, r, k))
  }

  lemma CountedStep(plan: Plan, j: Job, s: Step, k: nat)
    requires plan.Valid() && Enabled(plan, j, s) && !s.Crash? && Counted(plan, j, k)
    ensures Counted(plan, After(plan, j, s), k)
  {
    PlacedStep(plan, j, s);
    forall r: nat | r < plan.attempts ensures Covered(plan, After(plan, j, s), r, k) { CoveredStep(plan, j, s, r, k); }
    forall r: nat | r < plan.attempts ensures Single(plan, After(plan, j, s), r, k) { SingleStep(plan, j, s, r, k); }
  }

  lemma {:induction false} SynsPassed(wire: multiset<Syn>, i: nat, rounds: nat, round: nat, extra: nat)
    requires forall r: nat | r < rounds ::
      wire[Syn(r, i)] == if r < round then 1 else if r == round then extra else 0
    ensures SynsTo(wire, i, rounds) == Min(rounds, round) + if round < rounds then extra else 0
  {
    if rounds > 0 { SynsPassed(wire, i, rounds - 1, round, extra); }
  }

  lemma SentSoFar(plan: Plan, j: Job, k: nat)
    requires Counted(plan, j, k) && j.batch == [] && Silent(j, plan.order[k])
    ensures SynsTo(j.wire, plan.order[k], plan.attempts)
         == j.meta.round + if j.meta.round < plan.attempts && k < j.meta.next then 1 else 0
  {
    var i := plan.order[k];
    forall r: nat | r < plan.attempts ensures j.wire[Syn(r, i)] == if j.Passed(r, k) then 1 else 0 {
      assert Covered(plan, j, r, k) && Single(plan, j, r, k);
      assert j.Issued(r, i) == j.wire[Syn(r, i)];
    }
    SynsPassed(j.wire, i, plan.attempts, j.meta.round, if k < j.meta.next then 1 else 0);
  }

  /** A round is under way whose walk has yet to reach the endpoint. */
  predicate Ahead(plan: Plan, j: Job, i: nat) {
    !j.resting && j.meta.round < plan.attempts && exists k :: j.meta.next <= k < |plan.order| && plan.order[k] == i
  }

  /**
   The attempt of a first reply is the number of SYNs the endpoint was sent before it, and one more if the round
   under way had not reached the endpoint.
   */
  predicate CountsSyns(plan: Plan, j: Job, i: nat, reply: Reply) {
    reply.attempt == SynsTo(j.wire, i, plan.attempts) + if Ahead(plan, j, i) then 1 else 0
  }

  lemma FirstReply(plan: Plan, j: Job, k: nat, reply: Reply)
    requires plan.Valid() && Counted(plan, j, k)
    requires Silent(j, plan.order[k]) && Audible(plan, j, plan.order[k], reply)
    ensures CountsSyns(plan, j, plan.order[k], reply)
  {
    SentSoFar(plan, j, k);
    AheadIff(plan, j, k);
  }

  lemma AheadIff(plan: Plan, j: Job, k: nat)
    requires plan.Valid() && k < |plan.order|
    ensures Ahead(plan, j, plan.order[k]) <==> !j.resting && j.meta.round < plan.attempts && j.meta.next <= k
  {
    if l :| j.meta.next <= l < |plan.order| && plan.order[l] == plan.order[k] {
      assert l == k;
    }
  }

  lemma {:induction false} HeardsConcat(a: seq<Event>, b: seq<Event>)
    ensures Heards(a + b) == Heards(a) + Heards(b)
  {
    if b == [] {
      assert a + b == a;
    } else {
      HeardsConcat(a, b[..|b| - 1]);
      assert (a + b)[..|a + b| - 1] == a + b[..|b| - 1];
    }
  }

  /** After the first `n` steps of the run the endpoint is silent, and the next one is its first reply. */
  ghost predicate FirstHeardAt(plan: Plan, j: Job, steps: seq<Step>, i: nat, n: nat, reply: Reply) {
    && n < |steps| && Runs(plan, j, steps) && Runs(plan, j, steps[..n])
    && Silent(End(plan, j, steps[..n]), i)
    && steps[n] == Hear(i, reply)
    && FirstOf(Heards(EventsOf(plan, j, steps, i)), reply)
  }

  predicate FirstOf(replies: seq<Reply>, reply: Reply) {
    replies != [] && replies[0] == reply
  }

  lemma {:induction false} FirstReplyRun(plan: Plan, j: Job, steps: seq<Step>, k: nat) returns (n: nat, reply: Reply)
    requires plan.Valid() && Counted(plan, j, k) && Runs(plan, j, steps) && Orderly(steps)
    requires Silent(j, plan.order[k]) && Heards(EventsOf(plan, j, steps, plan.order[k])) != []
    ensures FirstHeardAt(plan, j, steps, plan.order[k], n, reply)
    ensures CountsSyns(plan, End(plan, j, steps[..n]), plan.order[k], reply)
    decreases |steps|
  {
    var i := plan.order[k];
    if HearsNow(steps, i) {
      n, reply := 0, steps[0].reply;
      HeardNow(plan, j, steps, i);
      FirstReply(plan, j, k, reply);
    } else {
      CountedStep(plan, j, steps[0], k);
      StaysSilent(plan, j, steps[0], i);
      NothingHeard(plan, j, steps, i);
      n, reply := FirstReplyRun(plan, After(plan, j, steps[0]), steps[1..], k);
      HeardLater(plan, j, steps, i, n, reply);
      n := n + 1;
    }
  }

  predicate HearsNow(steps: seq<Step>, i: nat) {
    steps != [] && steps[0].Hear? && steps[0].index == i
  }

  lemma HeardNow(plan: Plan, j: Job, steps: seq<Step>, i: nat)
    requires Runs(plan, j, steps) && HearsNow(steps, i) && Silent(j, i)
    ensures FirstHeardAt(plan, j, steps, i, 0, steps[0].reply)
    ensures End(plan, j, steps[..0]) == j
  {
    var es, rest := EventsAt(plan, j, steps[0], i), EventsOf(plan, After(plan, j, steps[0]), steps[1..], i);
    HeardsConcat(es, rest);
    assert Heards(es) == [steps[0].reply];
  }

  lemma NothingHeard(plan: Plan, j: Job, steps: seq<Step>, i: nat)
    requires Runs(plan, j, steps) && steps != [] && !steps[0].Crash? && !HearsNow(steps, i)
    ensures Heards(EventsOf(plan, j, steps, i)) == Heards(EventsOf(plan, After(plan, j, steps[0]), steps[1..], i))
  {
    var es, rest := EventsAt(plan, j, steps[0], i), EventsOf(plan, After(plan, j, steps[0]), steps[1..], i);
    HeardsConcat(es, rest);
    assert Heards(es) == [];
  }

  lemma HeardLater(plan: Plan, j: Job, steps: seq<Step>, i: nat, n: nat, reply: Reply)
    requires Runs(plan, j, steps) && steps != [] && !steps[0].Crash? && !HearsNow(steps, i)
    requires FirstHeardAt(plan, After(plan, j, steps[0]), steps[1..], i, n, reply)
    ensures FirstHeardAt(plan, j, steps, i, n + 1, reply)
    ensures End(plan, j, steps[..n + 1]) == End(plan, After(plan, j, steps[0]), steps[1..][..n])
  {
    NothingHeard(plan, j, steps, i);
    assert steps[..n + 1][1..] == steps[1..][..n];
  }

  lemma StaysSilent(plan: Plan, j: Job, s: Step, i: nat)
    requires Enabled(plan, j, s) && Silent(j, i) && !s.Crash? && !(s.Hear? && s.index == i)
    ensures Silent(After(plan, j, s), i)
  {
  }

  /** In every run without crashes the first reply of an endpoint is counted for the SYNs it was sent. */
  lemma FirstReplyAttempt(plan: Plan, start: Job, steps: seq<Step>, i: nat) returns (n: nat, reply: Reply)
    requires plan.Valid() && Fresh(plan, start) && Runs(plan, start, steps) && Orderly(steps)
    requires i < |plan.order| && Silent(start, i) && Heards(EventsOf(plan, start, steps, i)) != []
    ensures FirstHeardAt(plan, start, steps, i, n, reply)
    ensures CountsSyns(plan, End(plan, start, steps[..n]), i, reply)
  {
    assert i in plan.order;
    var k :| 0 <= k < |plan.order| && plan.order[k] == i;
    n, reply := FirstReplyRun(plan, start, steps, k);
  }

  /* ----- extending a run by a step ----- */

  lemma {:induction false} RunsSnoc(plan: Plan, j: Job, steps: seq<Step>, s: Step)
    requires Runs(plan, j, steps) && Enabled(plan, End(plan, j, steps), s)
    ensures Runs(plan, j, steps + [s])
    ensures End(plan, j, steps + [s]) == After(plan, End(plan, j, steps), s)
    decreases |steps|
  {
    if steps == [] {
      assert [] + [s] == [s] && [s][1..] == [];
    } else {
      RunsSnoc(plan, After(plan, j, steps[0]), steps[1..], s);
      assert (steps + [s])[1..] == steps[1..] + [s];
    }
  }
}
