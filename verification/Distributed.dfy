/**
 Coordinator and workers as a state machine.  Any worker may crash at any point, any request it
 ever sent may be delivered late or again, leases may expire, be renewed or be handed out unheard,
 and every transaction may see any clock value.  A finished scan nevertheless holds exactly the
 rows one sequential loop over the endpoints would write.
 */
module Distributed {
  import opened Words
  import opened Endpoints
  import opened Results
  import opened CycleWalks
  import opened Permutations
  import opened Coordinator

  /* ----- what a worker computes ----- */

  /** `simulated_state`, by thresholds on a hash of scan, configuration and endpoint. */
  function SimulatedState(w: World, s: string, sim: Simulation, e: Endpoint): TargetState {
    var sample := w.sample(s, e);
    var closed := sim.openRatio + sim.closedRatio;
    var unreachable := closed + sim.unreachableRatio;
    if sample < sim.openRatio then Open
    else if sample < closed then Closed
    else if sample < unreachable then Unreachable
    else NoResponse
  }

  /** What the reducer and a reader of a row look at: all of it but the attempt number and the columns carried along. */
  datatype Answer = Answer(
    ip: u32, service: Service, state: TargetState, banner: Option<BannerStatus>, conflicting: u32)

  function AnswerOf(r: ResultV1): Answer {
    Answer(r.ip, r.service, r.state, r.banner, r.conflicting)
  }

  function SimulatedAnswer(w: World, s: string, sim: Simulation, e: Endpoint): Answer {
    var state := SimulatedState(w, s, sim, e);
    Answer(e.ip, e.service, state, if state == Open && sim.banner then Some(BannerOk) else None, 0)
  }

  /** What the sample of an endpoint says of it, by the thresholds its configuration sets one after the other. */
  predicate ByThresholds(w: World, s: string, sim: Simulation, a: Answer) {
    var x := w.sample(s, Endpoint(a.ip, a.service));
    var (o, c, u) := (sim.openRatio, sim.closedRatio, sim.unreachableRatio);
    && (a.state == Open <==> x < o)
    && (a.state == Closed <==> o <= x < o + c)
    && (a.state == Unreachable <==> o <= x && o + c <= x < o + c + u)
    && (a.state == NoResponse <==> o <= x && o + c <= x && o + c + u <= x)
    && a.banner == (if x < o && sim.banner then Some(BannerOk) else None)
    && a.conflicting == 0
  }

  lemma AnswersByThresholds(w: World, s: string, sim: Simulation, e: Endpoint)
    ensures ByThresholds(w, s, sim, SimulatedAnswer(w, s, sim, e))
    ensures SimulatedAnswer(w, s, sim, e).ip == e.ip && SimulatedAnswer(w, s, sim, e).service == e.service
  {
  }

  function SimulatedResult(
      w: World, s: string, sim: Simulation, attempts: nat, e: Endpoint, details: string): ResultV1 {
    var a := SimulatedAnswer(w, s, sim, e);
    ResultV1(s, a.ip, a.service, a.state, attempts, a.conflicting, a.banner, details)
  }

  /** `observations` is what a run of `run_task` over the slice may submit. */
  predicate IsRunOf(w: World, lease: TaskLease, slice: seq<nat>, observations: seq<ResultV1>)
    decreases |slice|
  {
    if slice == [] then observations == []
    else if slice[0] in lease.terminal then IsRunOf(w, lease, slice[1..], observations)
    else match lease.config.targets.EndpointAt(slice[0])
      case None => false
      case Some(e) =>
        && observations != []
        && observations[0]
            == SimulatedResult(w, lease.scanId, lease.config.simulation, lease.round + 1, e, observations[0].details)
        && IsRunOf(w, lease, slice[1..], observations[1..])
  }

  /** A record of this lease's run, for the attempt of its round. */
  predicate RecordOk(w: World, lease: TaskLease, r: ResultV1) {
    && r.scanId == lease.scanId && r.synAttempts == lease.round + 1
    && ByThresholds(w, lease.scanId, lease.config.simulation, AnswerOf(r))
  }

  lemma {:induction false} RunByThresholds(w: World, lease: TaskLease, slice: seq<nat>, observations: seq<ResultV1>)
    requires IsRunOf(w, lease, slice, observations)
    ensures forall r | r in observations :: RecordOk(w, lease, r)
    decreases |slice|
  {
    if slice != [] {
      if slice[0] in lease.terminal {
        RunByThresholds(w, lease, slice[1..], observations);
      } else {
        var e := lease.config.targets.EndpointAt(slice[0]).value;
        AnswersByThresholds(w, lease.scanId, lease.config.simulation, e);
        RunByThresholds(w, lease, slice[1..], observations[1..]);
      }
    }
  }

  datatype RunSummary = RunSummary(
    materialized: nat, skipped: nat, sent: nat, open: nat, closed: nat, unreachable: nat, noResponse: nat)

  function CountState(observations: seq<ResultV1>, state: TargetState): nat {
    if observations == [] then 0 else
    var last := |observations| - 1;
    CountState(observations[..last], state) + if observations[last].state == state then 1 else 0
  }

  /** The totals of a run over a slice of this length. */
  predicate Sums(summary: RunSummary, length: nat, observations: seq<ResultV1>) {
    && summary.materialized == length == summary.skipped + summary.sent
    && summary.sent == |observations|
    && summary.open == CountState(observations, Open)
    && summary.closed == CountState(observations, Closed)
    && summary.unreachable == CountState(observations, Unreachable)
    && summary.noResponse == CountState(observations, NoResponse)
  }

  /** The counters after one more endpoint was observed. */
  function WithObserved(summary: RunSummary, state: TargetState): RunSummary {
    var more := summary.(materialized := summary.materialized + 1, sent := summary.sent + 1);
    match state
    case Open => more.(open := more.open + 1)
    case Closed => more.(closed := more.closed + 1)
    case Unreachable => more.(unreachable := more.unreachable + 1)
    case NoResponse => more.(noResponse := more.noResponse + 1)
  }

  function WithSkipped(summary: RunSummary): RunSummary {
    summary.(materialized := summary.materialized + 1, skipped := summary.skipped + 1)
  }

  lemma SumsAppend(summary: RunSummary, length: nat, observations: seq<ResultV1>, r: ResultV1)
    requires Sums(summary, length, observations)
    ensures Sums(WithObserved(summary, r.state), length + 1, observations + [r])
  {
    assert (observations + [r])[..|observations|] == observations;
  }

  lemma {:induction false} RunAppend(
      w: World, lease: TaskLease, slice: seq<nat>, index: nat, observations: seq<ResultV1>, more: seq<ResultV1>)
    requires IsRunOf(w, lease, slice, observations) && IsRunOf(w, lease, [index], more)
    ensures IsRunOf(w, lease, slice + [index], observations + more)
    decreases |slice|
  {
    if slice == [] {
      assert slice + [index] == [index] && observations + more == more;
    } else {
      assert (slice + [index])[1..] == slice[1..] + [index];
      if slice[0] in lease.terminal {
        RunAppend(w, lease, slice[1..], index, observations, more);
      } else {
        RunAppend(w, lease, slice[1..], index, observations[1..], more);
        assert (observations + more)[1..] == observations[1..] + more;
      }
    }
  }

  /** `run_task`; `stamp` supplies the clock-dependent columns of each record. */
  method RunTask(w: World, lease: TaskLease, stamp: nat -> string)
    returns (r: Result<(RunSummary, seq<ResultV1>), string>)
    requires 0 < lease.targetCount <= 0x1_0000_0000_0000 && lease.start <= lease.end <= lease.targetCount
    requires lease.targetCount == lease.config.targets.EndpointCount()
    ensures r.Ok? <==> lease.config.simulation.enabled
    ensures r.Ok? ==>
      && IsRunOf(w, lease, TaskSlice(w, lease.scanId, lease.round, lease.start, lease.end, lease.targetCount),
          r.value.1)
      && Sums(r.value.0, lease.end - lease.start, r.value.1)
    ensures r.Ok? ==> forall o | o in r.value.1 :: RecordOk(w, lease, o)
  {
    if !lease.config.simulation.enabled {
      return Err("distributed live scanning is not implemented yet");
    }
    var slice := RoundSlice(w, lease.scanId, lease.round, lease.targetCount, lease.start, lease.end);
    RoundOrderIsOrder(w, lease.scanId, lease.round, lease.targetCount);
    var summary, observations := RunSlice(w, lease, slice, stamp);
    RunByThresholds(w, lease, slice, observations);
    return Ok((summary, observations));
  }

  /** Its loop over the slice. */
  method RunSlice(w: World, lease: TaskLease, slice: seq<nat>, stamp: nat -> string)
    returns (summary: RunSummary, observations: seq<ResultV1>)
    requires forall index | index in slice :: index < lease.config.targets.EndpointCount()
    ensures IsRunOf(w, lease, slice, observations)
    ensures Sums(summary, |slice|, observations)
  {
    observations := [];
    summary := RunSummary(0, 0, 0, 0, 0, 0, 0);
    for k := 0 to |slice|
      invariant IsRunOf(w, lease, slice[..k], observations)
      invariant Sums(summary, k, observations)
    {
      assert slice[..k + 1] == slice[..k] + [slice[k]];
      if slice[k] in lease.terminal {
        RunAppend(w, lease, slice[..k], slice[k], observations, []);
        assert observations + [] == observations;
        summary := WithSkipped(summary);
        continue;
      }
      assert slice[k] in slice;
      IndexOfEndpointAt(lease.config.targets, slice[k]);
      var e := lease.config.targets.EndpointAt(slice[k]);
      var result := SimulatedResult(w, lease.scanId, lease.config.simulation, lease.round + 1, e.value, stamp(k));
      SumsAppend(summary, k, observations, result);
      summary := WithObserved(summary, result.state);
      RunAppend(w, lease, slice[..k], slice[k], observations, [result]);
      observations := observations + [result];
    }
    assert slice[..|slice|] == slice;
  }

  lemma RoundOrderIsOrder(w: World, s: string, round: nat, count: nat)
    requires 0 < count <= 0x1_0000_0000_0000
    ensures IsOrder(RoundOrder(w, s, round, count), count)
  {
    OrderIsOrder(RoundPermutation(w, s, round, count));
  }

  /* ----- the system ----- */

  datatype Message =
    | SubmitMsg(worker: string, scanId: string, taskId: int, observations: seq<ResultV1>)
    | CompleteMsg(worker: string, scanId: string, taskId: int)
    | FailMsg(worker: string, scanId: string, taskId: int, error: string)

  datatype Phase =
    | Idle
    | Holding(lease: TaskLease)
    | Awaiting(request: Message)
    | Stopped

  datatype Proc = Proc(worker: string, phase: Phase)

  datatype Sys = Sys(db: Db, procs: map<nat, Proc>, sent: set<Message>)

  const INITIAL: Sys := Sys(EMPTY_DB, map[], {})

  datatype Step =
    | CreateStep(scanId: string, config: ScanConfig, taskSize: nat)
    | StartStep(pid: nat, worker: string)
    | LeaseStep(pid: nat, scanId: string, taskId: int, now: int)
    | LostLeaseStep(worker: string, scanId: string, taskId: int, now: int)
    | RenewStep(worker: string, scanId: string, taskId: int, now: int)
    | RunStep(pid: nat, observations: seq<ResultV1>)
    | RunFailsStep(pid: nat, error: string)
    | ReplyStep(pid: nat)
    | DeliverStep(message: Message)
    | CrashStep(pid: nat)

  /** What the coordinator does with a request; an error leaves the tables alone. */
  function Handle(db: Db, m: Message): Result<Db, string> {
    match m
    case SubmitMsg(worker, s, id, observations) => db.Submit(worker, s, id, observations)
    case CompleteMsg(worker, s, id) => db.Complete(worker, s, id)
    case FailMsg(worker, s, id, error) => db.Fail(worker, s, id, error)
  }

  function AfterHandling(db: Db, m: Message): Db {
    match Handle(db, m) case Ok(after) => after case Err(_) => db
  }

  function AfterRenewal(db: Db, worker: string, s: string, id: int, now: int): Db {
    match db.Renew(worker, s, id, now) case Ok(after) => after case Err(_) => db
  }

  /** What a worker sends next once its pending request is answered. */
  function NextPhase(m: Message, ok: bool): Phase {
    if !ok then Stopped
    else match m
      case SubmitMsg(worker, s, id, _) => Awaiting(CompleteMsg(worker, s, id))
      case _ => Idle
  }

  function Sending(phase: Phase): set<Message> {
    if phase.Awaiting? then {phase.request} else {}
  }

  ghost predicate Enabled(w: World, sys: Sys, step: Step) {
    match step
    case CreateStep(s, config, taskSize) => s !in sys.db.scans && config.Valid() && taskSize > 0
    case StartStep(pid, worker) => pid !in sys.procs || sys.procs[pid].phase == Stopped
    case LeaseStep(pid, s, id, now) => pid in sys.procs && sys.procs[pid].phase == Idle && sys.db.IsNext(s, id, now)
    case LostLeaseStep(worker, s, id, now) => sys.db.IsNext(s, id, now)
    case RenewStep(worker, s, id, now) => true
    case RunStep(pid, observations) =>
      && pid in sys.procs && sys.procs[pid].phase.Holding?
      && IsRunOf(w, sys.procs[pid].phase.lease, LeaseSlice(w, sys.procs[pid].phase.lease), observations)
    case RunFailsStep(pid, error) => pid in sys.procs && sys.procs[pid].phase.Holding?
    case ReplyStep(pid) => pid in sys.procs && sys.procs[pid].phase.Awaiting?
    case DeliverStep(m) => m in sys.sent
    case CrashStep(pid) => pid in sys.procs
  }

  ghost function LeaseSlice(w: World, lease: TaskLease): seq<nat> {
    TaskSlice(w, lease.scanId, lease.round, lease.start, lease.end, lease.targetCount)
  }

  /** Move one process to a new phase, sending what it then waits for. */
  function Move(sys: Sys, db: Db, pid: nat, worker: string, phase: Phase): Sys {
    Sys(db, sys.procs[pid := Proc(worker, phase)], sys.sent + Sending(phase))
  }

  ghost function After(w: World, sys: Sys, step: Step): Sys
    requires Enabled(w, sys, step)
  {
    match step
    case CreateStep(s, config, taskSize) => Sys(sys.db.Create(s, config, taskSize), sys.procs, sys.sent)
    case StartStep(pid, worker) => Move(sys, sys.db, pid, worker, Idle)
    case LeaseStep(pid, s, id, now) =>
      Move(sys, sys.db.Lease(sys.procs[pid].worker, s, id, now), pid, sys.procs[pid].worker,
        Holding(LeaseOf(w, sys.db, s, id, now)))
    case LostLeaseStep(worker, s, id, now) => Sys(sys.db.Lease(worker, s, id, now), sys.procs, sys.sent)
    case RenewStep(worker, s, id, now) => Sys(AfterRenewal(sys.db, worker, s, id, now), sys.procs, sys.sent)
    case RunStep(pid, observations) =>
      var lease := sys.procs[pid].phase.lease;
      Move(sys, sys.db, pid, sys.procs[pid].worker,
        Awaiting(SubmitMsg(sys.procs[pid].worker, lease.scanId, lease.taskId, observations)))
    case RunFailsStep(pid, error) =>
      var lease := sys.procs[pid].phase.lease;
      Move(sys, sys.db, pid, sys.procs[pid].worker,
        Awaiting(FailMsg(sys.procs[pid].worker, lease.scanId, lease.taskId, error)))
    case ReplyStep(pid) =>
      var m := sys.procs[pid].phase.request;
      Move(sys, AfterHandling(sys.db, m), pid, sys.procs[pid].worker, NextPhase(m, Handle(sys.db, m).Ok?))
    case DeliverStep(m) => Sys(AfterHandling(sys.db, m), sys.procs, sys.sent)
    case CrashStep(pid) => Move(sys, sys.db, pid, sys.procs[pid].worker, Stopped)
  }

  /** `steps` leads from `from` to `to`. */
  ghost predicate Runs(w: World, from: Sys, steps: seq<Step>, to: Sys)
    decreases |steps|
  {
    if steps == [] then from == to else Enabled(w, from, steps[0]) && Runs(w, After(w, from, steps[0]), steps[1..], to)
  }

  /* ----- the invariant ----- */

  /** The record tells the truth about an endpoint of the scan. */
  predicate Honest(w: World, db: Db, s: string, r: ResultV1) {
    && s in db.scans
    && r.scanId == s
    && db.scans[s].config.targets.EndpointIndex(r.ip, r.service).Some?
    && AnswerOf(r) == SimulatedAnswer(w, s, db.scans[s].config.simulation, Endpoint(r.ip, r.service))
  }

  /** A row of the results table tells the truth, under the right key. */
  predicate HonestRow(w: World, db: Db, key: RowKey, row: ResultV1) {
    && Honest(w, db, key.scanId, row)
    && key.service == row.service
    && db.scans[key.scanId].config.targets.EndpointIndex(row.ip, row.service) == Some(key.index)
    && row.state != NoResponse
  }

  ghost predicate RowsHonest(w: World, db: Db) {
    forall key | key in db.results :: HonestRow(w, db, key, db.results[key])
  }

  /** The endpoint has a row, unless it never answers. */
  predicate Answered(w: World, db: Db, s: string, index: nat)
    requires s in db.scans
  {
    || HasRow(db.results, s, index)
    || match db.scans[s].config.targets.EndpointAt(index)
       case None => true
       case Some(e) => SimulatedState(w, s, db.scans[s].config.simulation, e) == NoResponse
  }

  ghost predicate SliceAnswered(w: World, db: Db, s: string, t: Task)
    requires s in db.scans
  {
    forall index | index in TaskSlice(w, s, t.round, t.start, t.end, db.scans[s].targetCount) ::
      Answered(w, db, s, index)
  }

  ghost predicate TaskKnown(db: Db, s: string, id: int) {
    s in db.scans && db.HasTask(s, id)
  }

  ghost predicate LeaseOk(db: Db, lease: TaskLease) {
    && TaskKnown(db, lease.scanId, lease.taskId)
    && db.tasks[lease.scanId][lease.taskId].Slice() == (lease.round, lease.start, lease.end)
    && lease.targetCount == db.scans[lease.scanId].targetCount
    && lease.config == db.scans[lease.scanId].config
    && (forall index | index in lease.terminal :: HasRow(db.results, lease.scanId, index))
  }

  /** One of the records is about this endpoint. */
  predicate Includes(config: ScanConfig, observations: seq<ResultV1>, index: nat) {
    exists r :: r in observations && config.targets.EndpointIndex(r.ip, r.service) == Some(index)
  }

  /** A submitted batch is truthful and, with the rows already there, covers its task. */
  ghost predicate BatchOk(w: World, db: Db, s: string, id: int, observations: seq<ResultV1>) {
    && TaskKnown(db, s, id)
    && (forall r | r in observations :: Honest(w, db, s, r))
    && var t := db.tasks[s][id];
       forall index | index in TaskSlice(w, s, t.round, t.start, t.end, db.scans[s].targetCount) ::
         Answered(w, db, s, index) || Includes(db.scans[s].config, observations, index)
  }

  ghost predicate MessageOk(w: World, db: Db, m: Message) {
    match m
    case SubmitMsg(_, s, id, observations) => BatchOk(w, db, s, id, observations)
    case CompleteMsg(_, s, id) => TaskKnown(db, s, id) && SliceAnswered(w, db, s, db.tasks[s][id])
    case FailMsg(_, _, _, _) => true
  }

  ghost predicate DoneAnswered(w: World, db: Db) {
    forall s, id | TaskKnown(db, s, id) && db.tasks[s][id].status == Done :: SliceAnswered(w, db, s, db.tasks[s][id])
  }

  ghost predicate DbInv(w: World, db: Db) {
    db.Valid() && RowsHonest(w, db) && DoneAnswered(w, db)
  }

  ghost predicate Inv(w: World, sys: Sys) {
    && DbInv(w, sys.db)
    && (forall m | m in sys.sent :: MessageOk(w, sys.db, m))
    && (forall pid | pid in sys.procs :: PhaseOk(sys, sys.procs[pid].phase))
  }

  ghost predicate PhaseOk(sys: Sys, phase: Phase) {
    match phase
    case Holding(lease) => LeaseOk(sys.db, lease)
    case Awaiting(m) => m in sys.sent
    case _ => true
  }

  /** Nothing a transaction does takes scans, slices or rows away. */
  ghost predicate Grows(a: Db, b: Db) {
    && (forall s | s in a.scans ::
        s in b.scans && b.scans[s].config == a.scans[s].config && b.scans[s].targetCount == a.scans[s].targetCount)
    && (forall s | s in a.tasks :: s in b.tasks && SameSlices(b.tasks[s], a.tasks[s]))
    && (forall key | key in a.results && TerminalState(a.results[key].state) ::
        key in b.results && TerminalState(b.results[key].state))
  }

  lemma RowStays(a: Db, b: Db, s: string, index: nat)
    requires Grows(a, b) && HasRow(a.results, s, index)
    ensures HasRow(b.results, s, index)
  {
    var key :| key in a.results && key.scanId == s && key.index == index && TerminalState(a.results[key].state);
    assert key in b.results && TerminalState(b.results[key].state);
  }

  lemma AnsweredStays(w: World, a: Db, b: Db, s: string, index: nat)
    requires Grows(a, b) && s in a.scans && Answered(w, a, s, index)
    ensures s in b.scans && Answered(w, b, s, index)
  {
    if HasRow(a.results, s, index) { RowStays(a, b, s, index); }
  }

  lemma SliceStays(w: World, a: Db, b: Db, s: string, id: int)
    requires Grows(a, b) && TaskKnown(a, s, id)
    ensures TaskKnown(b, s, id) && b.tasks[s][id].Slice() == a.tasks[s][id].Slice()
    ensures SliceAnswered(w, a, s, a.tasks[s][id]) ==> SliceAnswered(w, b, s, b.tasks[s][id])
  {
    var t := a.tasks[s][id];
    assert SameSlices(b.tasks[s], a.tasks[s]);
    if SliceAnswered(w, a, s, t) {
      forall index | index in TaskSlice(w, s, t.round, t.start, t.end, a.scans[s].targetCount)
        ensures Answered(w, b, s, index)
      {
        AnsweredStays(w, a, b, s, index);
      }
    }
  }

  lemma MessageStays(w: World, a: Db, b: Db, m: Message)
    requires Grows(a, b) && MessageOk(w, a, m)
    ensures MessageOk(w, b, m)
  {
    match m
    case CompleteMsg(_, s, id) => SliceStays(w, a, b, s, id);
    case FailMsg(_, _, _, _) =>
    case SubmitMsg(_, s, id, observations) =>
      SliceStays(w, a, b, s, id);
      var t := a.tasks[s][id];
      forall index | index in TaskSlice(w, s, t.round, t.start, t.end, a.scans[s].targetCount)
        ensures Answered(w, b, s, index) || Includes(b.scans[s].config, observations, index)
      {
        if Answered(w, a, s, index) { AnsweredStays(w, a, b, s, index); }
      }
  }

  lemma LeaseStays(a: Db, b: Db, lease: TaskLease)
    requires Grows(a, b) && LeaseOk(a, lease)
    ensures LeaseOk(b, lease)
  {
    assert SameSlices(b.tasks[lease.scanId], a.tasks[lease.scanId]);
    forall index | index in lease.terminal ensures HasRow(b.results, lease.scanId, index) {
      RowStays(a, b, lease.scanId, index);
    }
  }

  /* ----- steps of the database ----- */

  /** Rows stay honest when only task rows and scan statuses change. */
  lemma RowsStayHonest(w: World, a: Db, b: Db)
    requires RowsHonest(w, a) && Grows(a, b) && b.results == a.results
    ensures RowsHonest(w, b)
  {
    forall key | key in b.results ensures HonestRow(w, b, key, b.results[key]) {
      assert HonestRow(w, a, key, a.results[key]);
    }
  }

  /** A step that finishes no new task, or only one whose slice is answered, keeps finished tasks answered. */
  lemma DoneStaysAnswered(w: World, a: Db, b: Db)
    requires DoneAnswered(w, a) && Grows(a, b)
    requires forall s, id | TaskKnown(b, s, id) && b.tasks[s][id].status == Done ::
      TaskKnown(a, s, id) && SliceAnswered(w, a, s, a.tasks[s][id])
    ensures DoneAnswered(w, b)
  {
    forall s, id | TaskKnown(b, s, id) && b.tasks[s][id].status == Done ensures SliceAnswered(w, b, s, b.tasks[s][id]) {
      SliceStays(w, a, b, s, id);
    }
  }

  lemma CreateInv(w: World, db: Db, s: string, config: ScanConfig, taskSize: nat)
    requires DbInv(w, db) && s !in db.scans && config.Valid() && taskSize > 0
    ensures DbInv(w, db.Create(s, config, taskSize)) && Grows(db, db.Create(s, config, taskSize))
  {
    CreateKeepsValid(db, s, config, taskSize);
    CreateGrows(db, s, config, taskSize);
    RowsStayHonest(w, db, db.Create(s, config, taskSize));
    CreateDone(w, db, s, config, taskSize);
  }

  lemma CreateGrows(db: Db, s: string, config: ScanConfig, taskSize: nat)
    requires db.TasksValid() && s !in db.scans && taskSize > 0
    ensures Grows(db, db.Create(s, config, taskSize))
  {
  }

  lemma CreateDone(w: World, db: Db, s: string, config: ScanConfig, taskSize: nat)
    requires db.TasksValid() && DoneAnswered(w, db) && s !in db.scans && taskSize > 0
    ensures DoneAnswered(w, db.Create(s, config, taskSize))
  {
    var after := db.Create(s, config, taskSize);
    CreateGrows(db, s, config, taskSize);
    ScanTasksBounds(0, config.synAttempts, config.targets.EndpointCount(), taskSize);
    forall r, id | TaskKnown(after, r, id) && after.tasks[r][id].status == Done
      ensures TaskKnown(db, r, id) && SliceAnswered(w, db, r, db.tasks[r][id])
    {
      assert after.tasks[r][id] in after.tasks[r];
    }
    DoneStaysAnswered(w, db, after);
  }

  /** Rewriting one task row without moving its slice. */
  lemma UpdateInv(w: World, db: Db, s: string, id: int, t: Task, after: Db)
    requires DbInv(w, db) && TaskKnown(db, s, id) && t.Slice() == db.tasks[s][id].Slice()
    requires after == db.WithTask(s, id, t) || after == db.WithTask(s, id, t).MarkIfDone(s)
    requires after.Valid()
    requires t.status == Done ==> SliceAnswered(w, db, s, db.tasks[s][id])
    ensures DbInv(w, after) && Grows(db, after)
  {
    UpdateGrows(db, s, id, t, after);
    RowsStayHonest(w, db, after);
    forall r, k | TaskKnown(after, r, k) && after.tasks[r][k].status == Done
      ensures TaskKnown(db, r, k) && SliceAnswered(w, db, r, db.tasks[r][k])
    {
      DoneBefore(db, s, id, t, after, r, k);
      if r != s || k != id { assert DoneAnswered(w, db); }
    }
    DoneStaysAnswered(w, db, after);
  }

  lemma DoneBefore(db: Db, s: string, id: int, t: Task, after: Db, r: string, k: int)
    requires TaskKnown(db, s, id)
    requires after == db.WithTask(s, id, t) || after == db.WithTask(s, id, t).MarkIfDone(s)
    requires TaskKnown(after, r, k) && after.tasks[r][k].status == Done
    ensures TaskKnown(db, r, k)
    ensures (r == s && k == id && t.status == Done) || db.tasks[r][k].status == Done
  {
  }

  lemma UpdateGrows(db: Db, s: string, id: int, t: Task, after: Db)
    requires TaskKnown(db, s, id) && t.Slice() == db.tasks[s][id].Slice()
    requires after == db.WithTask(s, id, t) || after == db.WithTask(s, id, t).MarkIfDone(s)
    ensures Grows(db, after)
  {
  }

  lemma LeaseInv(w: World, db: Db, worker: string, s: string, id: int, now: int)
    requires DbInv(w, db) && db.Leasable(s, id, now)
    ensures DbInv(w, db.Lease(worker, s, id, now)) && Grows(db, db.Lease(worker, s, id, now))
  {
    LeaseKeepsValid(db, worker, s, id, now);
    UpdateInv(w, db, s, id, db.tasks[s][id].Leased(worker, now), db.Lease(worker, s, id, now));
  }

  lemma RenewInv(w: World, db: Db, worker: string, s: string, id: int, now: int)
    requires DbInv(w, db)
    ensures DbInv(w, AfterRenewal(db, worker, s, id, now)) && Grows(db, AfterRenewal(db, worker, s, id, now))
  {
    if db.Renew(worker, s, id, now).Ok? {
      RenewKeepsValid(db, worker, s, id, now);
      OwnedIsRunning(db, worker, s, id);
      UpdateInv(w, db, s, id, db.tasks[s][id].Renewed(now), AfterRenewal(db, worker, s, id, now));
    }
  }

  lemma FailInv(w: World, db: Db, worker: string, s: string, id: int, error: string)
    requires DbInv(w, db) && db.Fail(worker, s, id, error).Ok?
    ensures DbInv(w, db.Fail(worker, s, id, error).value) && Grows(db, db.Fail(worker, s, id, error).value)
  {
    FailKeepsValid(db, worker, s, id, error);
    OwnedIsRunning(db, worker, s, id);
    UpdateInv(w, db, s, id, db.tasks[s][id].Returned(error), db.Fail(worker, s, id, error).value);
  }

  /** Completing is safe because the worker's own batch went in before the completion was sent. */
  lemma CompleteInv(w: World, db: Db, worker: string, s: string, id: int)
    requires DbInv(w, db) && db.Complete(worker, s, id).Ok?
    requires MessageOk(w, db, CompleteMsg(worker, s, id))
    ensures DbInv(w, db.Complete(worker, s, id).value) && Grows(db, db.Complete(worker, s, id).value)
  {
    CompleteKeepsValid(db, worker, s, id);
    UpdateInv(w, db, s, id, db.tasks[s][id].Finished(), db.Complete(worker, s, id).value);
  }

  /** The endpoint of a record has a row. */
  predicate Stored(db: Db, s: string, r: ResultV1) {
    && s in db.scans
    && match db.scans[s].config.targets.EndpointIndex(r.ip, r.service)
       case None => false
       case Some(i) => HasRow(db.results, s, i)
  }

  /** One truthful observation more: rows stay honest, and an answer leaves a row. */
  lemma InsertInv(w: World, db: Db, s: string, o: Observation)
    requires RowsHonest(w, db) && Honest(w, db, s, o.result)
    requires db.scans[s].config.targets.EndpointIndex(o.result.ip, o.result.service) == Some(o.index)
    ensures RowsHonest(w, db.Insert(o)) && Grows(db, db.Insert(o))
    ensures o.result.state != NoResponse ==> Stored(db.Insert(o), s, o.result)
  {
    var after, key := db.Insert(o), o.Key();
    if o.result.state != NoResponse {
      InsertedRowHonest(w, db, s, o);
      assert key in after.results && TerminalState(after.results[key].state);
    }
    forall k | k in after.results ensures HonestRow(w, after, k, after.results[k]) {
      if k != key { assert HonestRow(w, db, k, db.results[k]); }
    }
  }

  lemma InsertedRowHonest(w: World, db: Db, s: string, o: Observation)
    requires RowsHonest(w, db) && Honest(w, db, s, o.result) && o.result.state != NoResponse
    requires db.scans[s].config.targets.EndpointIndex(o.result.ip, o.result.service) == Some(o.index)
    ensures HonestRow(w, db.Insert(o), o.Key(), db.Insert(o).results[o.Key()])
  {
    var key := o.Key();
    if key in db.results {
      assert HonestRow(w, db, key, db.results[key]);
      MergeHonest(w, db, key, db.results[key], o.result);
    }
  }

  lemma MergeHonest(w: World, db: Db, key: RowKey, current: ResultV1, incoming: ResultV1)
    requires HonestRow(w, db, key, current) && HonestRow(w, db, key, incoming)
    ensures HonestRow(w, db, key, MergeResult(current, incoming))
  {
    var targets := db.scans[key.scanId].config.targets;
    EndpointAtOfIndex(targets, current.ip, current.service);
    EndpointAtOfIndex(targets, incoming.ip, incoming.service);
    assert current.ip == incoming.ip;
  }

  lemma {:induction false} SubmitRows(w: World, db: Db, worker: string, s: string, id: int, observations: seq<ResultV1>)
    requires RowsHonest(w, db) && forall r | r in observations :: Honest(w, db, s, r)
    ensures db.Submit(worker, s, id, observations).Ok?
    ensures var after := db.Submit(worker, s, id, observations).value;
      && RowsHonest(w, after) && Grows(db, after)
      && forall r | r in observations && r.state != NoResponse :: Stored(after, s, r)
    decreases |observations|
  {
    if observations != [] {
      var r := observations[0];
      assert r in observations;
      var i := db.scans[s].config.targets.EndpointIndex(r.ip, r.service).value;
      var o := Observation(i, id, worker, r);
      InsertInv(w, db, s, o);
      var mid := db.Insert(o);
      assert forall q | q in observations[1..] :: q in observations;
      SubmitRows(w, mid, worker, s, id, observations[1..]);
      var after := mid.Submit(worker, s, id, observations[1..]).value;
      if r.state != NoResponse { RowStays(mid, after, s, i); }
      assert forall q | q in observations :: q == r || q in observations[1..];
    }
  }

  /** After a truthful, covering batch the whole task is answered, whoever owns its lease. */
  lemma SubmitInv(w: World, db: Db, worker: string, s: string, id: int, observations: seq<ResultV1>)
    requires DbInv(w, db) && BatchOk(w, db, s, id, observations)
    ensures db.Submit(worker, s, id, observations).Ok?
    ensures var after := db.Submit(worker, s, id, observations).value;
      && DbInv(w, after) && Grows(db, after)
      && TaskKnown(after, s, id) && SliceAnswered(w, after, s, after.tasks[s][id])
  {
    SubmitRows(w, db, worker, s, id, observations);
    SubmitKeepsValid(db, worker, s, id, observations);
    var after := db.Submit(worker, s, id, observations).value;
    DoneStaysAnswered(w, db, after);
    var t, targets := db.tasks[s][id], db.scans[s].config.targets;
    forall index | index in TaskSlice(w, s, t.round, t.start, t.end, db.scans[s].targetCount)
      ensures Answered(w, after, s, index)
    {
      if Answered(w, db, s, index) {
        AnsweredStays(w, db, after, s, index);
      } else {
        var r :| r in observations && targets.EndpointIndex(r.ip, r.service) == Some(index);
        assert Honest(w, db, s, r);
        EndpointAtOfIndex(targets, r.ip, r.service);
        assert r.state != NoResponse ==> Stored(after, s, r);
      }
    }
  }

  /* ----- steps of the system ----- */

  /** A leased task's terminal list names only endpoints that have rows. */
  lemma {:induction false} TerminalHaveRows(results: map<RowKey, ResultV1>, s: string, slice: seq<nat>)
    ensures forall index | index in slice :: index in TerminalIndexes(results, s, slice) <==> HasRow(results, s, index)
    ensures forall index | index in TerminalIndexes(results, s, slice) :: HasRow(results, s, index)
  {
    if slice != [] { TerminalHaveRows(results, s, slice[1..]); }
  }

  lemma LeaseOfOk(w: World, db: Db, s: string, id: int, worker: string, now: int)
    requires DbInv(w, db) && db.Leasable(s, id, now)
    ensures LeaseOk(db.Lease(worker, s, id, now), LeaseOf(w, db, s, id, now))
  {
    LeaseInv(w, db, worker, s, id, now);
    var t := db.tasks[s][id];
    TerminalHaveRows(db.results, s, TaskSlice(w, s, t.round, t.start, t.end, db.scans[s].targetCount));
    LeaseStays(db, db.Lease(worker, s, id, now), LeaseOf(w, db, s, id, now));
  }

  /** What a run submits is truthful and covers every endpoint its lease did not list as terminal. */
  lemma {:induction false} RunCovers(w: World, db: Db, lease: TaskLease, slice: seq<nat>, observations: seq<ResultV1>)
    requires LeaseOk(db, lease) && IsRunOf(w, lease, slice, observations)
    ensures forall r | r in observations :: Honest(w, db, lease.scanId, r)
    ensures forall index | index in slice :: index in lease.terminal || Includes(lease.config, observations, index)
    decreases |slice|
  {
    if slice != [] {
      if slice[0] in lease.terminal {
        RunCovers(w, db, lease, slice[1..], observations);
      } else {
        var rest := observations[1..];
        RunCovers(w, db, lease, slice[1..], rest);
        IndexOfEndpointAt(lease.config.targets, slice[0]);
        assert observations == [observations[0]] + rest;
        assert observations[0] in observations && Includes(lease.config, observations, slice[0]);
        forall index | index in slice[1..] && index !in lease.terminal
          ensures Includes(lease.config, observations, index)
        {
          var r :| r in rest && lease.config.targets.EndpointIndex(r.ip, r.service) == Some(index);
          assert r in observations;
        }
      }
    }
  }

  lemma RunMessageOk(w: World, db: Db, lease: TaskLease, observations: seq<ResultV1>)
    requires LeaseOk(db, lease) && IsRunOf(w, lease, LeaseSlice(w, lease), observations)
    ensures BatchOk(w, db, lease.scanId, lease.taskId, observations)
  {
    RunCovers(w, db, lease, LeaseSlice(w, lease), observations);
  }

  /** Handling any request ever sent keeps the database invariant; an accepted batch makes its completion safe. */
  lemma HandleInv(w: World, db: Db, m: Message)
    requires DbInv(w, db) && MessageOk(w, db, m)
    ensures DbInv(w, AfterHandling(db, m)) && Grows(db, AfterHandling(db, m))
    ensures forall worker, s, id, observations | m == SubmitMsg(worker, s, id, observations) ::
      MessageOk(w, AfterHandling(db, m), CompleteMsg(worker, s, id))
  {
    match m
    case SubmitMsg(worker, s, id, observations) => SubmitInv(w, db, worker, s, id, observations);
    case CompleteMsg(worker, s, id) => if db.Complete(worker, s, id).Ok? { CompleteInv(w, db, worker, s, id); }
    case FailMsg(worker, s, id, error) => if db.Fail(worker, s, id, error).Ok? { FailInv(w, db, worker, s, id, error); }
  }

  /** The invariant after a step, given what the step did to the tables and to one process. */
  lemma MoveInv(w: World, sys: Sys, db: Db, pid: nat, worker: string, phase: Phase)
    requires Inv(w, sys) && DbInv(w, db) && Grows(sys.db, db)
    requires forall m | m in Sending(phase) :: MessageOk(w, db, m)
    requires phase.Holding? ==> LeaseOk(db, phase.lease)
    ensures Inv(w, Move(sys, db, pid, worker, phase))
  {
    TablesInv(w, sys, db);
    var after := Move(sys, db, pid, worker, phase);
    forall p | p in after.procs ensures PhaseOk(after, after.procs[p].phase) {
      if p != pid { assert PhaseOk(sys, sys.procs[p].phase); LeaseOfProcStays(sys, db, p); }
    }
  }

  lemma LeaseOfProcStays(sys: Sys, db: Db, p: nat)
    requires Grows(sys.db, db) && p in sys.procs && PhaseOk(sys, sys.procs[p].phase)
    ensures sys.procs[p].phase.Holding? ==> LeaseOk(db, sys.procs[p].phase.lease)
  {
    if sys.procs[p].phase.Holding? { LeaseStays(sys.db, db, sys.procs[p].phase.lease); }
  }

  lemma TablesInv(w: World, sys: Sys, db: Db)
    requires Inv(w, sys) && DbInv(w, db) && Grows(sys.db, db)
    ensures Inv(w, Sys(db, sys.procs, sys.sent))
  {
    forall m | m in sys.sent ensures MessageOk(w, db, m) { MessageStays(w, sys.db, db, m); }
    forall p | p in sys.procs ensures PhaseOk(Sys(db, sys.procs, sys.sent), sys.procs[p].phase) {
      LeaseOfProcStays(sys, db, p);
    }
  }

  lemma GrowsRefl(db: Db)
    ensures Grows(db, db)
  {
  }

  /** Steps the coordinator takes without moving a process. */
  lemma CoordinatorStepInv(w: World, sys: Sys, step: Step)
    requires Inv(w, sys) && Enabled(w, sys, step)
    requires step.CreateStep? || step.LostLeaseStep? || step.RenewStep? || step.DeliverStep?
    ensures Inv(w, After(w, sys, step))
  {
    var db := After(w, sys, step).db;
    match step {
      case CreateStep(s, config, taskSize) => CreateInv(w, sys.db, s, config, taskSize);
      case LostLeaseStep(worker, s, id, now) => LeaseInv(w, sys.db, worker, s, id, now);
      case RenewStep(worker, s, id, now) => RenewInv(w, sys.db, worker, s, id, now);
      case DeliverStep(m) => HandleInv(w, sys.db, m);
    }
    TablesInv(w, sys, db);
  }

  lemma LeaseStepInv(w: World, sys: Sys, pid: nat, s: string, id: int, now: int)
    requires Inv(w, sys) && pid in sys.procs && sys.db.Leasable(s, id, now)
    ensures var worker := sys.procs[pid].worker;
      Inv(w, Move(sys, sys.db.Lease(worker, s, id, now), pid, worker, Holding(LeaseOf(w, sys.db, s, id, now))))
  {
    var worker := sys.procs[pid].worker;
    LeaseInv(w, sys.db, worker, s, id, now);
    LeaseOfOk(w, sys.db, s, id, worker, now);
    MoveInv(w, sys, sys.db.Lease(worker, s, id, now), pid, worker, Holding(LeaseOf(w, sys.db, s, id, now)));
  }

  lemma ReplyStepInv(w: World, sys: Sys, pid: nat, m: Message)
    requires Inv(w, sys) && pid in sys.procs && sys.procs[pid].phase == Awaiting(m)
    ensures Inv(w, Move(sys, AfterHandling(sys.db, m), pid, sys.procs[pid].worker, NextPhase(m, Handle(sys.db, m).Ok?)))
  {
    assert PhaseOk(sys, sys.procs[pid].phase);
    var phase := ReplyPhase(w, sys.db, m);
    MoveInv(w, sys, AfterHandling(sys.db, m), pid, sys.procs[pid].worker, phase);
  }

  /** What a worker sends after a reply is in order too. */
  lemma ReplyPhase(w: World, db: Db, m: Message) returns (phase: Phase)
    requires DbInv(w, db) && MessageOk(w, db, m)
    ensures phase == NextPhase(m, Handle(db, m).Ok?)
    ensures DbInv(w, AfterHandling(db, m)) && Grows(db, AfterHandling(db, m))
    ensures !phase.Holding? && forall next | next in Sending(phase) :: MessageOk(w, AfterHandling(db, m), next)
  {
    HandleInv(w, db, m);
    phase := NextPhase(m, Handle(db, m).Ok?);
    NextSends(m, Handle(db, m).Ok?);
  }

  lemma NextSends(m: Message, ok: bool)
    ensures !NextPhase(m, ok).Holding?
    ensures Sending(NextPhase(m, ok))
         == if ok && m.SubmitMsg? then {CompleteMsg(m.worker, m.scanId, m.taskId)} else {}
  {
  }

  /** Steps of one process that leave the tables alone. */
  lemma LocalStepInv(w: World, sys: Sys, step: Step)
    requires Inv(w, sys) && Enabled(w, sys, step)
    requires step.StartStep? || step.RunStep? || step.RunFailsStep? || step.CrashStep?
    ensures Inv(w, After(w, sys, step))
  {
    match step
    case StartStep(pid, worker) => LocalMoveInv(w, sys, pid, worker, Idle);
    case RunStep(pid, observations) => RunStepInv(w, sys, pid, sys.procs[pid].phase.lease, observations);
    case RunFailsStep(pid, error) =>
      var worker, lease := sys.procs[pid].worker, sys.procs[pid].phase.lease;
      LocalMoveInv(w, sys, pid, worker, Awaiting(FailMsg(worker, lease.scanId, lease.taskId, error)));
    case CrashStep(pid) => LocalMoveInv(w, sys, pid, sys.procs[pid].worker, Stopped);
  }

  lemma RunStepInv(w: World, sys: Sys, pid: nat, lease: TaskLease, observations: seq<ResultV1>)
    requires Inv(w, sys) && pid in sys.procs && sys.procs[pid].phase == Holding(lease)
    requires IsRunOf(w, lease, LeaseSlice(w, lease), observations)
    ensures var worker := sys.procs[pid].worker;
      Inv(w, Move(sys, sys.db, pid, worker, Awaiting(SubmitMsg(worker, lease.scanId, lease.taskId, observations))))
  {
    var worker := sys.procs[pid].worker;
    assert PhaseOk(sys, sys.procs[pid].phase);
    RunMessageOk(w, sys.db, lease, observations);
    LocalMoveInv(w, sys, pid, worker, Awaiting(SubmitMsg(worker, lease.scanId, lease.taskId, observations)));
  }

  /** A step that leaves the tables alone. */
  lemma LocalMoveInv(w: World, sys: Sys, pid: nat, worker: string, phase: Phase)
    requires Inv(w, sys) && !phase.Holding?
    requires forall m | m in Sending(phase) :: MessageOk(w, sys.db, m)
    ensures Inv(w, Move(sys, sys.db, pid, worker, phase))
  {
    GrowsRefl(sys.db);
    MoveInv(w, sys, sys.db, pid, worker, phase);
  }

  /** Every step keeps the invariant. */
  lemma StepInv(w: World, sys: Sys, step: Step)
    requires Inv(w, sys) && Enabled(w, sys, step)
    ensures Inv(w, After(w, sys, step))
  {
    if step.LeaseStep? {
      LeaseStepInv(w, sys, step.pid, step.scanId, step.taskId, step.now);
    } else if step.ReplyStep? {
      ReplyStepInv(w, sys, step.pid, sys.procs[step.pid].phase.request);
    } else if step.StartStep? || step.RunStep? || step.RunFailsStep? || step.CrashStep? {
      LocalStepInv(w, sys, step);
    } else {
      CoordinatorStepInv(w, sys, step);
    }
  }

  lemma InitialInv(w: World)
    ensures Inv(w, INITIAL)
  {
  }

  lemma {:induction false} RunInv(w: World, from: Sys, steps: seq<Step>, to: Sys)
    requires Inv(w, from) && Runs(w, from, steps, to)
    ensures Inv(w, to)
    decreases |steps|
  {
    if steps != [] {
      StepInv(w, from, steps[0]);
      RunInv(w, After(w, from, steps[0]), steps[1..], to);
    }
  }

  /* ----- schedule independence ----- */

  /** Answers by row key, for one scan. */
  function AnswersOf(results: map<RowKey, ResultV1>, s: string): map<RowKey, Answer> {
    map key | key in results && key.scanId == s :: AnswerOf(results[key])
  }

  /** One sequential loop over the first `n` endpoints. */
  function SequentialScan(w: World, s: string, config: ScanConfig, n: nat): map<RowKey, Answer> {
    if n == 0 then map[] else
    var before := SequentialScan(w, s, config, n - 1);
    match config.targets.EndpointAt(n - 1)
    case None => before
    case Some(e) =>
      var answer := SimulatedAnswer(w, s, config.simulation, e);
      if answer.state == NoResponse then before else before[RowKey(s, n - 1, e.service) := answer]
  }

  /** The rows a sequential loop leaves. */
  predicate SequentialRow(w: World, s: string, config: ScanConfig, n: nat, key: RowKey) {
    && key.scanId == s
    && key.index < n
    && match config.targets.EndpointAt(key.index)
       case None => false
       case Some(e) => e.service == key.service && SimulatedState(w, s, config.simulation, e) != NoResponse
  }

  lemma {:induction false} SequentialRows(w: World, s: string, config: ScanConfig, n: nat, key: RowKey)
    ensures key in SequentialScan(w, s, config, n) <==> SequentialRow(w, s, config, n, key)
    ensures key in SequentialScan(w, s, config, n) ==>
      SequentialScan(w, s, config, n)[key]
        == SimulatedAnswer(w, s, config.simulation, config.targets.EndpointAt(key.index).value)
  {
    if n > 0 { SequentialRows(w, s, config, n - 1, key); }
  }

  lemma PositionOf(w: World, s: string, round: nat, count: nat, index: nat) returns (position: nat)
    requires index < count <= 0x1_0000_0000_0000
    ensures position < count && RoundOrder(w, s, round, count)[position] == index
  {
    RoundOrderIsOrder(w, s, round, count);
    assert index in RoundOrder(w, s, round, count);
    position :| position < count && RoundOrder(w, s, round, count)[position] == index;
  }

  lemma InSlice(order: seq<nat>, start: nat, end: nat, position: nat)
    requires start <= position < end <= |order|
    ensures order[position] in order[start..end]
  {
    assert order[start..end][position - start] == order[position];
  }

  /** Every endpoint belongs to the slice of some task of the first round. */
  lemma TaskOfEndpoint(w: World, scan: Scan, tasks: seq<Task>, s: string, index: nat) returns (id: nat)
    requires ScanValid(scan, tasks) && index < scan.targetCount
    ensures id < |tasks|
    ensures index in TaskSlice(w, s, tasks[id].round, tasks[id].start, tasks[id].end, scan.targetCount)
  {
    EndpointCountBound(scan.config.targets);
    var position := PositionOf(w, s, 0, scan.targetCount, index);
    id := TaskAtPosition(scan, tasks, position);
    InSlice(RoundOrder(w, s, 0, scan.targetCount), tasks[id].start, tasks[id].end, position);
  }

  lemma TaskAtPosition(scan: Scan, tasks: seq<Task>, position: nat) returns (id: nat)
    requires ScanValid(scan, tasks) && position < scan.targetCount
    ensures id < |tasks| && tasks[id].round == 0 && tasks[id].start <= position < tasks[id].end <= scan.targetCount
  {
    var original := ScanTasks(0, scan.config.synAttempts, scan.targetCount, scan.taskSize);
    id := ScanTasksCover(0, scan.config.synAttempts, scan.targetCount, scan.taskSize, 0, position);
    ScanTasksBounds(0, scan.config.synAttempts, scan.targetCount, scan.taskSize);
    assert original[id] in original;
    assert tasks[id].Slice() == original[id].Slice();
  }

  /** In a finished scan every endpoint is answered: the first round's slices already cover them all. */
  lemma FinishedAnswers(w: World, db: Db, s: string, index: nat)
    requires DbInv(w, db) && s in db.scans && db.scans[s].status == Completed && index < db.scans[s].targetCount
    ensures Answered(w, db, s, index)
  {
    assert ScanValid(db.scans[s], db.tasks[s]);
    var id := TaskOfEndpoint(w, db.scans[s], db.tasks[s], s, index);
    assert db.tasks[s][id] in db.tasks[s];
    assert TaskKnown(db, s, id) && SliceAnswered(w, db, s, db.tasks[s][id]);
  }

  /** A finished scan's rows are exactly those of the sequential loop. */
  lemma FinishedRows(w: World, db: Db, s: string, key: RowKey)
    requires DbInv(w, db) && s in db.scans && db.scans[s].status == Completed && key.scanId == s
    ensures key in db.results <==> SequentialRow(w, s, db.scans[s].config, db.scans[s].targetCount, key)
    ensures key in db.results ==>
      AnswerOf(db.results[key])
        == SimulatedAnswer(w, s, db.scans[s].config.simulation, db.scans[s].config.targets.EndpointAt(key.index).value)
  {
    var scan := db.scans[s];
    assert ScanValid(scan, db.tasks[s]);
    var targets := scan.config.targets;
    if key in db.results {
      assert HonestRow(w, db, key, db.results[key]);
      EndpointAtOfIndex(targets, db.results[key].ip, db.results[key].service);
    } else if SequentialRow(w, s, scan.config, scan.targetCount, key) {
      FinishedAnswers(w, db, s, key.index);
      var other :| other in db.results && other.scanId == s && other.index == key.index;
      assert HonestRow(w, db, other, db.results[other]);
      EndpointAtOfIndex(targets, db.results[other].ip, db.results[other].service);
    }
  }

  /**
   Schedule independence.  However the steps of coordinator and workers interleave, crash, repeat
   and overlap, a completed scan holds exactly the rows of one sequential loop: same endpoints, and for each
   the same address, state, banner status and conflict count, which is zero.
   */
  lemma CompletedScanIsSequential(w: World, steps: seq<Step>, sys: Sys, s: string)
    requires Runs(w, INITIAL, steps, sys)
    requires s in sys.db.scans && sys.db.scans[s].status == Completed
    ensures AnswersOf(sys.db.results, s)
      == SequentialScan(w, s, sys.db.scans[s].config, sys.db.scans[s].config.targets.EndpointCount())
  {
    InitialInv(w);
    RunInv(w, INITIAL, steps, sys);
    var scan := sys.db.scans[s];
    assert ScanValid(scan, sys.db.tasks[s]);
    FinishedScan(w, sys.db, s);
  }

  lemma FinishedScan(w: World, db: Db, s: string)
    requires DbInv(w, db) && s in db.scans && db.scans[s].status == Completed
    ensures AnswersOf(db.results, s) == SequentialScan(w, s, db.scans[s].config, db.scans[s].targetCount)
  {
    var sequential := SequentialScan(w, s, db.scans[s].config, db.scans[s].targetCount);
    forall key ensures AnswerAgrees(db.results, s, sequential, key) {
      FinishedAnswer(w, db, s, key);
    }
    AgreeingAnswersEqual(db.results, s, sequential);
  }

  predicate AnswerAgrees(results: map<RowKey, ResultV1>, s: string, sequential: map<RowKey, Answer>, key: RowKey) {
    && (key in sequential <==> key in results && key.scanId == s)
    && (key in sequential ==> sequential[key] == AnswerOf(results[key]))
  }

  lemma AgreeingAnswersEqual(results: map<RowKey, ResultV1>, s: string, sequential: map<RowKey, Answer>)
    requires forall key :: AnswerAgrees(results, s, sequential, key)
    ensures AnswersOf(results, s) == sequential
  {
    var answers := AnswersOf(results, s);
    forall key
      ensures key in answers <==> key in sequential
      ensures key in answers ==> answers[key] == sequential[key]
    {
      assert AnswerAgrees(results, s, sequential, key);
    }
  }

  lemma FinishedAnswer(w: World, db: Db, s: string, key: RowKey)
    requires DbInv(w, db) && s in db.scans && db.scans[s].status == Completed
    ensures AnswerAgrees(db.results, s, SequentialScan(w, s, db.scans[s].config, db.scans[s].targetCount), key)
  {
    SequentialRows(w, s, db.scans[s].config, db.scans[s].targetCount, key);
    if key.scanId == s { FinishedRows(w, db, s, key); }
  }

  /** Two runs that finish the same scan agree on every row's answer. */
  lemma RunsAgree(w: World, a: seq<Step>, x: Sys, b: seq<Step>, y: Sys, s: string)
    requires Runs(w, INITIAL, a, x) && Runs(w, INITIAL, b, y)
    requires s in x.db.scans && x.db.scans[s].status == Completed
    requires s in y.db.scans && y.db.scans[s].status == Completed
    requires x.db.scans[s].config == y.db.scans[s].config
    ensures AnswersOf(x.db.results, s) == AnswersOf(y.db.results, s)
  {
    CompletedScanIsSequential(w, a, x, s);
    CompletedScanIsSequential(w, b, y, s);
  }

  /* ----- what holds in every reachable state ----- */

  /** The lease state machine, in every reachable state. */
  lemma ReachableLeases(w: World, steps: seq<Step>, sys: Sys, s: string)
    requires Runs(w, INITIAL, steps, sys) && s in sys.db.scans
    ensures s in sys.db.tasks && sys.db.scans[s].taskSize > 0
    ensures forall t | t in sys.db.tasks[s] :: t.status != Failed && (t.owner.Some? <==> t.status == Running)
    ensures CountStatus(sys.db.tasks[s], Pending) + CountStatus(sys.db.tasks[s], Running)
      + CountStatus(sys.db.tasks[s], Done)
         == sys.db.scans[s].config.synAttempts * CeilDiv(sys.db.scans[s].targetCount, sys.db.scans[s].taskSize)
    ensures sys.db.scans[s].status == Completed <==> Unfinished(sys.db.tasks[s]) == 0
  {
    InitialInv(w);
    RunInv(w, INITIAL, steps, sys);
    assert ScanValid(sys.db.scans[s], sys.db.tasks[s]);
    StatusCounts(sys.db, s);
  }

  /** In every reachable state the results table is the reduction of the observation log. */
  lemma ReachableRefines(w: World, steps: seq<Step>, sys: Sys)
    requires Runs(w, INITIAL, steps, sys)
    ensures Refines(sys.db.results, sys.db.log)
  {
    InitialInv(w);
    RunInv(w, INITIAL, steps, sys);
  }

  /** In every reachable state the rows are the simulated ones, so no counter was ever raised. */
  lemma ReachableRows(w: World, steps: seq<Step>, sys: Sys, key: RowKey)
    requires Runs(w, INITIAL, steps, sys) && key in sys.db.results
    ensures key.scanId in sys.db.scans
    ensures var row, config := sys.db.results[key], sys.db.scans[key.scanId].config;
      && config.targets.EndpointAt(key.index) == Some(Endpoint(row.ip, row.service))
      && AnswerOf(row) == SimulatedAnswer(w, key.scanId, config.simulation, Endpoint(row.ip, row.service))
      && ByThresholds(w, key.scanId, config.simulation, AnswerOf(row))
      && row.conflicting == 0
  {
    InitialInv(w);
    RunInv(w, INITIAL, steps, sys);
    var row := sys.db.results[key];
    assert HonestRow(w, sys.db, key, row);
    EndpointAtOfIndex(sys.db.scans[key.scanId].config.targets, row.ip, row.service);
  }

  /** Once done, a task stays done, whatever step comes next. */
  lemma DoneIsAbsorbing(w: World, sys: Sys, step: Step, s: string, id: int)
    requires sys.db.Valid() && Enabled(w, sys, step)
    requires TaskKnown(sys.db, s, id) && sys.db.tasks[s][id].status == Done
    ensures TaskStays(sys.db, After(w, sys, step).db, s, id)
  {
    DoneHasNoOwner(sys.db, s, id);
    if step.ReplyStep? || step.DeliverStep? {
      HandlingKeepsDone(w, sys, step, s, id);
    } else if step.LeaseStep? || step.LostLeaseStep? || step.RenewStep? {
      LeasingKeepsDone(w, sys, step, s, id);
    } else if step.CreateStep? {
      CreateKeepsOthers(sys.db, step.scanId, step.config, step.taskSize, s, id);
    } else {
      LocalStepKeepsTables(w, sys, step);
    }
  }

  lemma HandlingKeepsDone(w: World, sys: Sys, step: Step, s: string, id: int)
    requires sys.db.Valid() && Enabled(w, sys, step) && (step.ReplyStep? || step.DeliverStep?)
    requires TaskKnown(sys.db, s, id) && sys.db.tasks[s][id].owner == None
    ensures TaskStays(sys.db, After(w, sys, step).db, s, id)
  {
    if step.ReplyStep? {
      HandledKeepsDone(sys.db, sys.procs[step.pid].phase.request, s, id);
    } else {
      HandledKeepsDone(sys.db, step.message, s, id);
    }
  }

  lemma LeasingKeepsDone(w: World, sys: Sys, step: Step, s: string, id: int)
    requires Enabled(w, sys, step) && (step.LeaseStep? || step.LostLeaseStep? || step.RenewStep?)
    requires TaskKnown(sys.db, s, id) && sys.db.tasks[s][id].status == Done && sys.db.tasks[s][id].owner == None
    ensures TaskStays(sys.db, After(w, sys, step).db, s, id)
  {
    match step
    case LeaseStep(pid, r, k, now) => LeaseKeepsDone(sys.db, sys.procs[pid].worker, r, k, now, s, id);
    case LostLeaseStep(worker, r, k, now) => LeaseKeepsDone(sys.db, worker, r, k, now, s, id);
    case RenewStep(worker, r, k, now) => RenewKeepsDone(sys.db, worker, r, k, now, s, id);
  }

  lemma LocalStepKeepsTables(w: World, sys: Sys, step: Step)
    requires Enabled(w, sys, step) && (step.StartStep? || step.RunStep? || step.RunFailsStep? || step.CrashStep?)
    ensures After(w, sys, step).db == sys.db
  {
  }

  lemma CreateKeepsOthers(db: Db, r: string, config: ScanConfig, taskSize: nat, s: string, id: int)
    requires r !in db.scans && taskSize > 0 && TaskKnown(db, s, id)
    ensures TaskStays(db, db.Create(r, config, taskSize), s, id)
  {
  }

  lemma DoneHasNoOwner(db: Db, s: string, id: int)
    requires db.TasksValid() && TaskKnown(db, s, id)
    ensures db.tasks[s][id].status == Done ==> db.tasks[s][id].owner == None
  {
    assert ScanValid(db.scans[s], db.tasks[s]);
    assert db.tasks[s][id] in db.tasks[s];
  }

  lemma LeaseKeepsDone(db: Db, worker: string, r: string, k: int, now: int, s: string, id: int)
    requires db.Leasable(r, k, now) && TaskKnown(db, s, id) && db.tasks[s][id].status == Done
    ensures TaskStays(db, db.Lease(worker, r, k, now), s, id)
  {
    UpdateKeepsOthers(db, r, k, db.tasks[r][k].Leased(worker, now), s, id);
  }

  lemma RenewKeepsDone(db: Db, worker: string, r: string, k: int, now: int, s: string, id: int)
    requires TaskKnown(db, s, id) && db.tasks[s][id].owner == None
    ensures TaskStays(db, AfterRenewal(db, worker, r, k, now), s, id)
  {
    if db.Owns(worker, r, k) { UpdateKeepsOthers(db, r, k, db.tasks[r][k].Renewed(now), s, id); }
  }

  ghost predicate TaskStays(a: Db, b: Db, s: string, id: int)
    requires TaskKnown(a, s, id)
  {
    TaskKnown(b, s, id) && b.tasks[s][id] == a.tasks[s][id]
  }

  lemma UpdateKeepsOthers(db: Db, r: string, k: int, t: Task, s: string, id: int)
    requires db.HasTask(r, k) && TaskKnown(db, s, id) && (r != s || k != id)
    ensures TaskStays(db, db.WithTask(r, k, t), s, id)
    ensures TaskStays(db, db.WithTask(r, k, t).MarkIfDone(r), s, id)
  {
  }

  lemma HandledKeepsDone(db: Db, m: Message, s: string, id: int)
    requires db.Valid() && TaskKnown(db, s, id) && db.tasks[s][id].owner == None
    ensures TaskStays(db, AfterHandling(db, m), s, id)
  {
    match m
    case SubmitMsg(worker, r, k, observations) =>
      if Handle(db, m).Ok? { SubmitKeepsValid(db, worker, r, k, observations); }
    case CompleteMsg(worker, r, k) =>
      if db.Owns(worker, r, k) { UpdateKeepsOthers(db, r, k, db.tasks[r][k].Finished(), s, id); }
    case FailMsg(worker, r, k, error) =>
      if db.Owns(worker, r, k) { UpdateKeepsOthers(db, r, k, db.tasks[r][k].Returned(error), s, id); }
  }
}
