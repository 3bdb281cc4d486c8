/**
 The coordinator's store.  Each operation is one transaction over four tables: scans, tasks,
 the observation log and the results.  `Db` is the tables as a value, with one function per
 transaction; class `Store` performs them in place.
 */
module Coordinator {
  import opened Words
  import opened Targets
  import opened Endpoints
  import opened Results
  import opened Permutations
  import Bits

  const LEASE_MS: int := 30_000

  datatype TaskStatus = Pending | Running | Done | Failed

  datatype Task = Task(
    round: nat, start: nat, end: nat,
    status: TaskStatus, owner: Option<string>, expires: Option<int>,
    attempt: nat, lastError: Option<string>)
  {
    function Slice(): (nat, nat, nat) { (round, start, end) }

    predicate Holds(r: nat, position: nat) { round == r && start <= position < end }

    function Renewed(now: int): Task { this.(expires := Some(now + LEASE_MS)) }

    function Finished(): Task { this.(status := Done, owner := None, expires := None) }

    function Returned(error: string): Task {
      this.(status := Pending, owner := None, expires := None, lastError := Some(error))
    }

    function Leased(worker: string, now: int): Task {
      this.(status := Running, owner := Some(worker), expires := Some(now + LEASE_MS), attempt := attempt + 1)
    }
  }

  /** The part of the configuration that decides simulated answers. */
  datatype Simulation = Simulation(
    enabled: bool, openRatio: real, closedRatio: real, unreachableRatio: real, banner: bool)

  datatype ScanConfig = ScanConfig(targets: ScanTargets, synAttempts: nat, simulation: Simulation) {
    predicate Valid() { 1 <= synAttempts <= 3 }
  }

  datatype ScanStatus = Active | Completed

  /** A scan row.  `taskSize` is a history value: no operation reads it after creation. */
  datatype Scan = Scan(status: ScanStatus, config: ScanConfig, targetCount: nat, taskSize: nat) {
    function Closed(): Scan { this.(status := Completed) }

    predicate Valid() {
      && config.Valid()
      && taskSize > 0
      && targetCount == config.targets.EndpointCount()
    }
  }

  /**
   The keyed hashes: `hash` the round function of a scan's permutation for one scan round,
   `sample` the unit-interval sample deciding a simulated state.
   */
  datatype World = World(hash: (string, nat, nat, nat) -> nat, sample: (string, Endpoint) -> real)

  datatype TaskLease = TaskLease(
    scanId: string, taskId: nat, round: nat, start: nat, end: nat,
    targetCount: nat, config: ScanConfig, terminal: seq<nat>, expires: int)

  /* ----- task tables ----- */

  function FreshTask(round: nat, start: nat, end: nat): Task {
    Task(round, start, end, Pending, None, None, 0, None)
  }

  /** The tasks of one round from position `start` on. */
  function RoundTasks(round: nat, start: nat, count: nat, size: nat): seq<Task>
    requires size > 0
    decreases count - start
  {
    if start >= count then [] else
    var end := Min(start + size, count);
    [FreshTask(round, start, end)] + RoundTasks(round, end, count, size)
  }

  /** The tasks of round `round` and all later ones. */
  function ScanTasks(round: nat, attempts: nat, count: nat, size: nat): seq<Task>
    requires size > 0
    decreases attempts - round
  {
    if round >= attempts then [] else RoundTasks(round, 0, count, size) + ScanTasks(round + 1, attempts, count, size)
  }

  function CeilDiv(a: nat, b: nat): nat
    requires b > 0
  {
    (a + b - 1) / b
  }

  lemma {:induction false} RoundTasksCount(round: nat, start: nat, count: nat, size: nat)
    requires size > 0 && start <= count
    ensures |RoundTasks(round, start, count, size)| == CeilDiv(count - start, size)
    decreases count - start
  {
    if start + size <= count {
      RoundTasksCount(round, start + size, count, size);
      CeilStep(count - start, size);
    } else if start < count {
      Bits.ModUnique(count - start + size - 1, size, 1, count - start - 1);
    } else {
      Bits.ModUnique(size - 1, size, 0, size - 1);
    }
  }

  lemma CeilStep(a: nat, b: nat)
    requires 0 < b <= a
    ensures CeilDiv(a, b) == 1 + CeilDiv(a - b, b)
  {
    var q, r := (a - 1) / b, (a - 1) % b;
    Bits.ModUnique(a + b - 1, b, q + 1, r);
  }

  /** A scan has `attempts * ceil(count / size)` tasks. */
  lemma {:induction false} ScanTasksCount(round: nat, attempts: nat, count: nat, size: nat)
    requires size > 0 && round <= attempts
    ensures |ScanTasks(round, attempts, count, size)| == (attempts - round) * CeilDiv(count, size)
    decreases attempts - round
  {
    if round < attempts {
      RoundTasksCount(round, 0, count, size);
      ScanTasksCount(round + 1, attempts, count, size);
      var c := CeilDiv(count, size);
      assert (attempts - round) * c == c + (attempts - round - 1) * c;
    }
  }

  /** Every position of every round lies in the slice of some task of that round. */
  lemma {:induction false} RoundTasksCover(round: nat, start: nat, count: nat, size: nat, position: nat)
    returns (id: nat)
    requires size > 0 && start <= position < count
    ensures id < |RoundTasks(round, start, count, size)|
    ensures var t := RoundTasks(round, start, count, size)[id]; t.round == round && t.start <= position < t.end
    decreases count - start
  {
    var end := Min(start + size, count);
    if position < end {
      id := 0;
    } else {
      id := RoundTasksCover(round, end, count, size, position);
      id := id + 1;
    }
  }

  lemma {:induction false} ScanTasksCover(from: nat, attempts: nat, count: nat, size: nat, round: nat, position: nat)
    returns (id: nat)
    requires size > 0 && from <= round < attempts && position < count
    ensures id < |ScanTasks(from, attempts, count, size)|
    ensures var t := ScanTasks(from, attempts, count, size)[id]; t.round == round && t.start <= position < t.end
    decreases attempts - from
  {
    var head := RoundTasks(from, 0, count, size);
    if from == round {
      id := RoundTasksCover(from, 0, count, size, position);
    } else {
      id := ScanTasksCover(from + 1, attempts, count, size, round, position);
      id := |head| + id;
    }
  }

  /** Of two tasks of a round the earlier one ends before the later one starts. */
  lemma {:induction false} RoundTasksAscend(round: nat, start: nat, count: nat, size: nat, i: nat, j: nat)
    requires size > 0 && i < j < |RoundTasks(round, start, count, size)|
    ensures RoundTasks(round, start, count, size)[i].end <= RoundTasks(round, start, count, size)[j].start
    decreases count - start
  {
    var end := Min(start + size, count);
    var rest := RoundTasks(round, end, count, size);
    if i > 0 {
      RoundTasksAscend(round, end, count, size, i - 1, j - 1);
    } else {
      RoundTasksBounds(round, end, count, size);
      assert rest[j - 1] in rest;
    }
  }

  /** Tasks come in the order of their rounds, and within a round of their disjoint slices. */
  lemma {:induction false} ScanTasksAscend(from: nat, attempts: nat, count: nat, size: nat, i: nat, j: nat)
    requires size > 0 && i < j < |ScanTasks(from, attempts, count, size)|
    ensures var a, b := ScanTasks(from, attempts, count, size)[i], ScanTasks(from, attempts, count, size)[j];
      a.round < b.round || (a.round == b.round && a.end <= b.start)
    decreases attempts - from
  {
    var head, tail := RoundTasks(from, 0, count, size), ScanTasks(from + 1, attempts, count, size);
    RoundTasksBounds(from, 0, count, size);
    ScanTasksBounds(from + 1, attempts, count, size);
    if j < |head| {
      RoundTasksAscend(from, 0, count, size, i, j);
      assert head[i] in head && head[j] in head;
    } else if i >= |head| {
      ScanTasksAscend(from + 1, attempts, count, size, i - |head|, j - |head|);
    } else {
      assert head[i] in head && tail[j - |head|] in tail;
    }
  }

  /** The slices of a round partition its positions: each lies in exactly one task's. */
  lemma ScanTasksPartition(attempts: nat, count: nat, size: nat, round: nat, position: nat) returns (id: nat)
    requires size > 0 && round < attempts && position < count
    ensures id < |ScanTasks(0, attempts, count, size)|
    ensures forall k: nat | k < |ScanTasks(0, attempts, count, size)| ::
      ScanTasks(0, attempts, count, size)[k].Holds(round, position) <==> k == id
  {
    var tasks := ScanTasks(0, attempts, count, size);
    id := ScanTasksCover(0, attempts, count, size, round, position);
    forall k: nat | k < |tasks| && k != id ensures !tasks[k].Holds(round, position) {
      if k < id {
        ScanTasksAscend(0, attempts, count, size, k, id);
      } else {
        ScanTasksAscend(0, attempts, count, size, id, k);
      }
    }
  }

  /** Slices stay within the scan. */
  lemma {:induction false} RoundTasksBounds(round: nat, start: nat, count: nat, size: nat)
    requires size > 0
    ensures forall t | t in RoundTasks(round, start, count, size) ::
      t == FreshTask(t.round, t.start, t.end) && t.attempt == 0 && t.status == Pending && t.round == round
        && start <= t.start < t.end <= count
    decreases count - start
  {
    if start < count { RoundTasksBounds(round, Min(start + size, count), count, size); }
  }

  lemma {:induction false} ScanTasksBounds(from: nat, attempts: nat, count: nat, size: nat)
    requires size > 0
    ensures forall t | t in ScanTasks(from, attempts, count, size) ::
      t == FreshTask(t.round, t.start, t.end) && t.attempt == 0 && t.status == Pending && from <= t.round < attempts
        && t.start < t.end <= count
    decreases attempts - from
  {
    if from < attempts {
      RoundTasksBounds(from, 0, count, size);
      ScanTasksBounds(from + 1, attempts, count, size);
    }
  }

  /** Same rounds and slices, whatever the statuses. */
  predicate SameSlices(a: seq<Task>, b: seq<Task>) {
    |a| == |b| && forall i | 0 <= i < |a| :: a[i].Slice() == b[i].Slice()
  }

  predicate AllDone(tasks: seq<Task>) {
    forall t | t in tasks :: t.status == Done
  }

  /** Lease columns are set exactly while a task runs; no operation ever writes `failed`. */
  predicate LeaseColumnsOk(t: Task) {
    && t.status != Failed
    && (t.owner.Some? <==> t.status == Running)
    && (t.expires.Some? <==> t.status == Running)
  }

  /** A scan row and its task rows fit together. */
  ghost predicate ScanValid(scan: Scan, tasks: seq<Task>) {
    && scan.Valid()
    && SameSlices(tasks, ScanTasks(0, scan.config.synAttempts, scan.targetCount, scan.taskSize))
    && (forall t | t in tasks :: LeaseColumnsOk(t))
    && (scan.status == Completed <==> AllDone(tasks))
  }

  /** The results table is the reduction of the observation log. */
  ghost predicate Refines(results: map<RowKey, ResultV1>, log: seq<Observation>) {
    forall key ::
      && (key in results <==> Reduced(log, key).Some?)
      && (key in results ==> results[key] == Reduced(log, key).value)
  }

  datatype Db = Db(
    scans: map<string, Scan>,
    tasks: map<string, seq<Task>>,
    log: seq<Observation>,
    results: map<RowKey, ResultV1>)
  {
    /** What every transaction keeps. */
    ghost predicate Valid() {
      && TasksValid()
      && Refines(results, log)
    }

    ghost predicate TasksValid() {
      && scans.Keys == tasks.Keys
      && (forall s | s in scans :: ScanValid(scans[s], tasks[s]))
    }

    predicate HasTask(s: string, id: int) {
      s in tasks && 0 <= id < |tasks[s]|
    }

    /** `WHERE scan_id = .. AND task_id = .. AND lease_owner = ..`. */
    predicate Owns(worker: string, s: string, id: int) {
      HasTask(s, id) && tasks[s][id].owner == Some(worker)
    }

    function WithTask(s: string, id: int, t: Task): Db
      requires HasTask(s, id)
    {
      this.(tasks := tasks[s := tasks[s][id := t]])
    }

    /* ----- transactions ----- */

    function Create(s: string, config: ScanConfig, taskSize: nat): Db
      requires taskSize > 0
    {
      var count := config.targets.EndpointCount();
      this.(scans := scans[s := Scan(Active, config, count, taskSize)],
            tasks := tasks[s := ScanTasks(0, config.synAttempts, count, taskSize)])
    }

    /** Pending, or running under an expired lease, in an active scan. */
    predicate Leasable(s: string, id: int, now: int) {
      && s in scans && scans[s].status == Active
      && HasTask(s, id)
      && var t := tasks[s][id];
         (t.status == Pending || (t.status == Running && t.expires.Some? && t.expires.value < now))
    }

    /** First in the order (round, task id) among the leasable tasks. */
    predicate IsNext(s: string, id: int, now: int) {
      && Leasable(s, id, now)
      && (forall r | r in tasks :: forall k | 0 <= k < |tasks[r]| && Leasable(r, k, now) ::
            tasks[s][id].round < tasks[r][k].round || (tasks[s][id].round == tasks[r][k].round && id <= k))
    }

    function Lease(worker: string, s: string, id: int, now: int): Db
      requires HasTask(s, id)
    {
      WithTask(s, id, tasks[s][id].Leased(worker, now))
    }

    function Renew(worker: string, s: string, id: int, now: int): Result<Db, string> {
      if Owns(worker, s, id) && tasks[s][id].status == Running
      then Ok(WithTask(s, id, tasks[s][id].Renewed(now)))
      else Err("task lease is no longer owned by worker")
    }

    /** `mark_scan_completed_if_done`. */
    function MarkIfDone(s: string): Db {
      if s in scans && s in tasks && AllDone(tasks[s]) then this.(scans := scans[s := scans[s].Closed()]) else this
    }

    function Complete(worker: string, s: string, id: int): Result<Db, string> {
      if Owns(worker, s, id)
      then Ok(WithTask(s, id, tasks[s][id].Finished()).MarkIfDone(s))
      else Err("task lease is no longer owned by worker")
    }

    function Fail(worker: string, s: string, id: int, error: string): Result<Db, string> {
      if Owns(worker, s, id)
      then Ok(WithTask(s, id, tasks[s][id].Returned(error)))
      else Err("task lease is no longer owned by worker")
    }

    /** `insert_observation` and, unless there was no response, `reduce_result`. */
    function Insert(o: Observation): Db {
      var key := o.Key();
      this.(log := log + [o],
            results := if o.result.state == NoResponse then results
                       else results[key := if key in results then MergeResult(results[key], o.result) else o.result])
    }

    function Submit(worker: string, s: string, taskId: int, observations: seq<ResultV1>): Result<Db, string>
      decreases |observations|
    {
      if observations == [] then Ok(this)
      else if s !in scans then Err("no such scan")
      else match scans[s].config.targets.EndpointIndex(observations[0].ip, observations[0].service)
        case None => Err("observation endpoint is outside scan targets")
        case Some(i) =>
          Insert(Observation(i, taskId, worker, observations[0])).Submit(worker, s, taskId, observations[1..])
    }
  }

  const EMPTY_DB: Db := Db(map[], map[], [], map[])

  /* ----- what each transaction keeps ----- */

  lemma CreateKeepsValid(db: Db, s: string, config: ScanConfig, taskSize: nat)
    requires db.Valid() && s !in db.scans && config.Valid() && taskSize > 0
    ensures db.Create(s, config, taskSize).Valid()
  {
    NewScanValid(config, taskSize);
  }

  lemma NewScanValid(config: ScanConfig, taskSize: nat)
    requires config.Valid() && taskSize > 0
    ensures var count := config.targets.EndpointCount();
      ScanValid(Scan(Active, config, count, taskSize), ScanTasks(0, config.synAttempts, count, taskSize))
  {
    var count := config.targets.EndpointCount();
    var tasks := ScanTasks(0, config.synAttempts, count, taskSize);
    EndpointCountBound(config.targets);
    ScanTasksBounds(0, config.synAttempts, count, taskSize);
    var id := ScanTasksCover(0, config.synAttempts, count, taskSize, 0, 0);
    assert tasks[id] in tasks;
  }

  /** Replacing one task by another with the same slice keeps the rows in shape. */
  lemma UpdateKeepsShape(tasks: seq<Task>, id: nat, t: Task)
    requires id < |tasks| && t.Slice() == tasks[id].Slice() && LeaseColumnsOk(t)
    requires forall u | u in tasks :: LeaseColumnsOk(u)
    ensures SameSlices(tasks[id := t], tasks)
    ensures forall u | u in tasks[id := t] :: LeaseColumnsOk(u)
  {
    forall u | u in tasks[id := t] ensures LeaseColumnsOk(u) {
      var k :| 0 <= k < |tasks| && tasks[id := t][k] == u;
      assert k != id ==> tasks[k] in tasks;
    }
  }

  /** A task that is not done, before and after, leaves the scan's status right. */
  lemma UndoneKeepsScan(scan: Scan, tasks: seq<Task>, id: nat, t: Task)
    requires ScanValid(scan, tasks) && id < |tasks| && t.Slice() == tasks[id].Slice() && LeaseColumnsOk(t)
    requires t.status != Done && tasks[id].status != Done
    ensures ScanValid(scan, tasks[id := t])
  {
    UpdateKeepsShape(tasks, id, t);
    assert tasks[id := t][id] in tasks[id := t] && tasks[id] in tasks;
  }

  lemma OwnedIsRunning(db: Db, worker: string, s: string, id: int)
    requires db.TasksValid() && db.Owns(worker, s, id)
    ensures db.tasks[s][id].status == Running && s in db.scans
  {
    assert ScanValid(db.scans[s], db.tasks[s]);
    assert db.tasks[s][id] in db.tasks[s];
  }

  lemma LeaseKeepsValid(db: Db, worker: string, s: string, id: int, now: int)
    requires db.Valid() && db.Leasable(s, id, now)
    ensures db.Lease(worker, s, id, now).Valid()
  {
    UndoneKeepsScan(db.scans[s], db.tasks[s], id, db.tasks[s][id].Leased(worker, now));
  }

  lemma RenewOkIff(db: Db, worker: string, s: string, id: int, now: int)
    requires db.TasksValid()
    ensures db.Renew(worker, s, id, now).Ok? <==> db.Owns(worker, s, id)
  {
    if db.Owns(worker, s, id) { OwnedIsRunning(db, worker, s, id); }
  }

  lemma RenewKeepsValid(db: Db, worker: string, s: string, id: int, now: int)
    requires db.Valid() && db.Renew(worker, s, id, now).Ok?
    ensures db.Renew(worker, s, id, now).value.Valid()
  {
    UndoneKeepsScan(db.scans[s], db.tasks[s], id, db.tasks[s][id].Renewed(now));
  }

  lemma FailKeepsValid(db: Db, worker: string, s: string, id: int, error: string)
    requires db.Valid() && db.Fail(worker, s, id, error).Ok?
    ensures db.Fail(worker, s, id, error).value.Valid()
  {
    OwnedIsRunning(db, worker, s, id);
    UndoneKeepsScan(db.scans[s], db.tasks[s], id, db.tasks[s][id].Returned(error));
  }

  /** A running task keeps its scan active, so only its expiry decides when another worker gets it. */
  lemma RunningUntil(db: Db, s: string, id: int, clock: int)
    requires db.TasksValid() && db.HasTask(s, id) && db.tasks[s][id].status == Running
    ensures db.tasks[s][id].expires.Some?
    ensures db.Leasable(s, id, clock) <==> clock > db.tasks[s][id].expires.value
  {
    assert ScanValid(db.scans[s], db.tasks[s]);
    assert db.tasks[s][id] in db.tasks[s];
  }

  /** A lease is good for thirty seconds: until then nobody else gets the task, and afterwards anyone does. */
  lemma LeaseLasts(db: Db, worker: string, s: string, id: int, now: int, clock: int)
    requires db.Valid() && db.Leasable(s, id, now)
    ensures var after := db.Lease(worker, s, id, now);
      && after.Owns(worker, s, id) && after.tasks[s][id].attempt == db.tasks[s][id].attempt + 1
      && (after.Leasable(s, id, clock) <==> clock > now + 30_000)
  {
    LeaseKeepsValid(db, worker, s, id, now);
    RunningUntil(db.Lease(worker, s, id, now), s, id, clock);
  }

  /** A renewal buys thirty seconds from when it is made, however long the lease still had to run. */
  lemma RenewalLasts(db: Db, worker: string, s: string, id: int, now: int, clock: int)
    requires db.Valid() && db.Renew(worker, s, id, now).Ok?
    ensures var after := db.Renew(worker, s, id, now).value;
      after.Owns(worker, s, id) && (after.Leasable(s, id, clock) <==> clock > now + 30_000)
  {
    RenewKeepsValid(db, worker, s, id, now);
    RunningUntil(db.Renew(worker, s, id, now).value, s, id, clock);
  }

  /** A task given back can be leased at once, by anyone, and tells why it was given back. */
  lemma FailedIsFree(db: Db, worker: string, s: string, id: int, error: string, clock: int)
    requires db.Valid() && db.Fail(worker, s, id, error).Ok?
    ensures var after := db.Fail(worker, s, id, error).value;
      after.Leasable(s, id, clock) && after.tasks[s][id].owner == None && after.tasks[s][id].lastError == Some(error)
  {
    OwnedIsRunning(db, worker, s, id);
    RunningUntil(db, s, id, clock);
    assert ScanValid(db.scans[s], db.tasks[s]);
    assert db.tasks[s][id] in db.tasks[s];
  }

  lemma CompleteKeepsValid(db: Db, worker: string, s: string, id: int)
    requires db.Valid() && db.Complete(worker, s, id).Ok?
    ensures db.Complete(worker, s, id).value.Valid()
  {
    OwnedIsRunning(db, worker, s, id);
    var scan, tasks := db.scans[s], db.tasks[s];
    var finished := tasks[id := tasks[id].Finished()];
    FinishKeepsScan(scan, tasks, id);
    ReplaceScan(db, s, if AllDone(finished) then scan.Closed() else scan, finished);
    CompletedTables(db, worker, s, id);
  }

  lemma ReplaceScan(db: Db, s: string, scan: Scan, tasks: seq<Task>)
    requires db.Valid() && s in db.scans && ScanValid(scan, tasks)
    ensures db.(scans := db.scans[s := scan], tasks := db.tasks[s := tasks]).Valid()
  {
  }

  lemma CompletedTables(db: Db, worker: string, s: string, id: int)
    requires db.Owns(worker, s, id) && s in db.scans
    ensures
      var finished := db.tasks[s][id := db.tasks[s][id].Finished()];
      var scan := if AllDone(finished) then db.scans[s].Closed() else db.scans[s];
      db.Complete(worker, s, id) == Ok(db.(scans := db.scans[s := scan], tasks := db.tasks[s := finished]))
  {
    assert db.scans[s := db.scans[s]] == db.scans;
  }

  lemma FinishKeepsScan(scan: Scan, tasks: seq<Task>, id: nat)
    requires ScanValid(scan, tasks) && id < |tasks| && tasks[id].status == Running
    ensures var after := tasks[id := tasks[id].Finished()];
      ScanValid(if AllDone(after) then scan.Closed() else scan, after)
  {
    assert tasks[id] in tasks;
    UpdateKeepsShape(tasks, id, tasks[id].Finished());
  }

  /** Logging one observation and folding it into its row keeps the table a reduction of the log. */
  lemma InsertRefines(db: Db, o: Observation)
    requires Refines(db.results, db.log)
    ensures Refines(db.Insert(o).results, db.Insert(o).log)
  {
    var after := db.Insert(o);
    assert after.log[..|after.log| - 1] == db.log;
    forall key ensures key in after.results <==> Reduced(after.log, key).Some?
               ensures key in after.results ==> after.results[key] == Reduced(after.log, key).value
    {
      assert key in db.results <==> Reduced(db.log, key).Some?;
    }
  }

  lemma {:induction false} SubmitKeepsValid(db: Db, worker: string, s: string, taskId: int, observations: seq<ResultV1>)
    requires db.Valid()
    requires db.Submit(worker, s, taskId, observations).Ok?
    ensures var after := db.Submit(worker, s, taskId, observations).value;
      after.Valid() && after.scans == db.scans && after.tasks == db.tasks
    decreases |observations|
  {
    if observations != [] {
      var i := db.scans[s].config.targets.EndpointIndex(observations[0].ip, observations[0].service).value;
      var o := Observation(i, taskId, worker, observations[0]);
      InsertRefines(db, o);
      SubmitKeepsValid(db.Insert(o), worker, s, taskId, observations[1..]);
    }
  }

  /* ----- no task is lost ----- */

  function CountStatus(tasks: seq<Task>, status: TaskStatus): nat {
    if tasks == [] then 0 else (if tasks[0].status == status then 1 else 0) + CountStatus(tasks[1..], status)
  }

  function Unfinished(tasks: seq<Task>): nat {
    CountStatus(tasks, Pending) + CountStatus(tasks, Running)
  }

  lemma {:induction false} CountsAddUp(tasks: seq<Task>)
    requires forall t | t in tasks :: t.status != Failed
    ensures CountStatus(tasks, Pending) + CountStatus(tasks, Running) + CountStatus(tasks, Done) == |tasks|
    ensures Unfinished(tasks) == 0 <==> AllDone(tasks)
  {
    if tasks != [] {
      assert tasks == [tasks[0]] + tasks[1..];
      assert tasks[0] in tasks;
      CountsAddUp(tasks[1..]);
    }
  }

  lemma {:induction false} CountUpdate(tasks: seq<Task>, id: nat, t: Task, status: TaskStatus)
    requires id < |tasks|
    ensures CountStatus(tasks[id := t], status) ==
            CountStatus(tasks, status) - (if tasks[id].status == status then 1 else 0)
              + (if t.status == status then 1 else 0)
  {
    if id > 0 {
      CountUpdate(tasks[1..], id - 1, t, status);
      assert tasks[id := t][1..] == tasks[1..][id - 1 := t];
    } else {
      assert tasks[id := t][1..] == tasks[1..];
    }
  }

  /** In every valid state the tasks of a scan are `attempts * ceil(count / size)` in number, none of them failed. */
  lemma StatusCounts(db: Db, s: string)
    requires db.Valid() && s in db.scans
    ensures CountStatus(db.tasks[s], Pending) + CountStatus(db.tasks[s], Running) + CountStatus(db.tasks[s], Done)
         == db.scans[s].config.synAttempts * CeilDiv(db.scans[s].targetCount, db.scans[s].taskSize)
    ensures db.scans[s].status == Completed <==> Unfinished(db.tasks[s]) == 0
  {
    assert ScanValid(db.scans[s], db.tasks[s]);
    CountsAddUp(db.tasks[s]);
    ScanTasksCount(0, db.scans[s].config.synAttempts, db.scans[s].targetCount, db.scans[s].taskSize);
  }

  /** A successful completion finishes exactly one task, of exactly one scan. */
  lemma CompleteFinishesOne(db: Db, worker: string, s: string, id: int)
    requires db.Valid() && db.Complete(worker, s, id).Ok?
    ensures var after := db.Complete(worker, s, id).value;
      && Unfinished(after.tasks[s]) == Unfinished(db.tasks[s]) - 1
      && (forall r | r in db.tasks && r != s :: after.tasks[r] == db.tasks[r])
  {
    OwnedIsRunning(db, worker, s, id);
    var t := db.Complete(worker, s, id).value.tasks[s][id];
    CountUpdate(db.tasks[s], id, t, Pending);
    CountUpdate(db.tasks[s], id, t, Running);
  }

  ghost predicate NothingLeasable(db: Db, now: int) {
    forall s, id :: !db.Leasable(s, id, now)
  }

  /** Running under a lease that has not expired. */
  predicate Held(t: Task, now: int) {
    t.status == Running && t.expires.Some? && t.expires.value >= now
  }

  lemma LeasableIff(db: Db, s: string, id: int, now: int)
    requires db.Valid() && db.HasTask(s, id)
    ensures db.Leasable(s, id, now) <==> db.tasks[s][id].status != Done && !Held(db.tasks[s][id], now)
  {
    assert ScanValid(db.scans[s], db.tasks[s]);
    assert db.tasks[s][id] in db.tasks[s];
  }

  /** Nothing is leasable iff every unfinished task, of whatever scan, is held. */
  lemma NothingLeasableIff(db: Db, now: int)
    requires db.Valid()
    ensures NothingLeasable(db, now) <==>
      forall s, id | db.HasTask(s, id) && db.tasks[s][id].status != Done :: Held(db.tasks[s][id], now)
  {
    forall s, id | db.HasTask(s, id)
      ensures db.Leasable(s, id, now) <==> db.tasks[s][id].status != Done && !Held(db.tasks[s][id], now)
    {
      LeasableIff(db, s, id, now);
    }
  }

  /** When something is leasable there is a first candidate. */
  lemma NextExists(db: Db, s: string, id: int, now: int)
    requires db.Leasable(s, id, now)
    ensures exists r, k :: r in db.tasks && 0 <= k < |db.tasks[r]| && db.IsNext(r, k, now)
    decreases db.tasks[s][id].round, id
  {
    if !db.IsNext(s, id, now) {
      var r, k :| r in db.tasks && 0 <= k < |db.tasks[r]| && db.Leasable(r, k, now)
        && !(db.tasks[s][id].round < db.tasks[r][k].round
            || (db.tasks[s][id].round == db.tasks[r][k].round && id <= k));
      NextExists(db, r, k, now);
    }
  }

  /* ----- permutation slices ----- */

  function RoundHashOf(w: World, s: string, round: nat): RoundHash {
    (k: nat, right: nat) => w.hash(s, round, k, right)
  }

  /** The permutation of one scan round. */
  function RoundPermutation(w: World, s: string, round: nat, count: nat): (p: Permutation)
    requires 0 < count <= 0x1_0000_0000_0000
    ensures p.Valid() && p.n == count
    ensures forall k: nat, right: nat :: p.hash(k, right) == w.hash(s, round, k, right)
  {
    NewDomain(count, RoundHashOf(w, s, round));
    New(count, RoundHashOf(w, s, round)).value
  }

  predicate TerminalState(state: TargetState) { state == Open || state == Closed || state == Unreachable }

  /** Some row of this endpoint is terminal. */
  predicate HasRow(results: map<RowKey, ResultV1>, s: string, index: nat) {
    exists key :: key in results && key.scanId == s && key.index == index && TerminalState(results[key].state)
  }

  /** The order in which one scan round visits the endpoints. */
  ghost function RoundOrder(w: World, s: string, round: nat, count: nat): (order: seq<nat>)
    requires 0 < count <= 0x1_0000_0000_0000
    ensures |order| == count
  {
    Order(RoundPermutation(w, s, round, count))
  }

  /** `terminal_endpoint_indexes_tx`: endpoints of a slice of the order that already have a terminal row. */
  function TerminalIndexes(results: map<RowKey, ResultV1>, s: string, slice: seq<nat>): seq<nat> {
    if slice == [] then [] else
    (if HasRow(results, s, slice[0]) then [slice[0]] else []) + TerminalIndexes(results, s, slice[1..])
  }

  /** The endpoints of a task, in visiting order; a slice outside the scan would be a panic. */
  ghost function TaskSlice(w: World, s: string, round: nat, start: nat, end: nat, count: nat): seq<nat> {
    if 0 < count <= 0x1_0000_0000_0000 && start <= end <= count then RoundOrder(w, s, round, count)[start..end] else []
  }

  /** The lease handed out for a task. */
  ghost function LeaseOf(w: World, db: Db, s: string, id: int, now: int): TaskLease
    requires db.HasTask(s, id) && s in db.scans
  {
    var scan, t := db.scans[s], db.tasks[s][id];
    var slice := TaskSlice(w, s, t.round, t.start, t.end, scan.targetCount);
    var terminal := TerminalIndexes(db.results, s, slice);
    TaskLease(s, id, t.round, t.start, t.end, scan.targetCount, scan.config, terminal, now + LEASE_MS)
  }

  lemma SliceInScan(db: Db, s: string, id: int)
    requires db.Valid() && db.HasTask(s, id)
    ensures s in db.scans
    ensures 0 < db.scans[s].targetCount <= 0x1_0000_0000_0000
    ensures db.tasks[s][id].start < db.tasks[s][id].end <= db.scans[s].targetCount
    ensures db.tasks[s][id].round < db.scans[s].config.synAttempts
  {
    assert ScanValid(db.scans[s], db.tasks[s]);
    var scan := db.scans[s];
    EndpointCountBound(scan.config.targets);
    var original := ScanTasks(0, scan.config.synAttempts, scan.targetCount, scan.taskSize);
    ScanTasksBounds(0, scan.config.synAttempts, scan.targetCount, scan.taskSize);
    assert original[id] in original;
    assert db.tasks[s][id].Slice() == original[id].Slice();
  }

  method BuildLease(w: World, db: Db, s: string, id: nat, now: int) returns (lease: TaskLease)
    requires db.Valid() && db.HasTask(s, id)
    ensures s in db.scans
    ensures lease == LeaseOf(w, db, s, id, now)
  {
    SliceInScan(db, s, id);
    var scan, t := db.scans[s], db.tasks[s][id];
    var slice := RoundSlice(w, s, t.round, scan.targetCount, t.start, t.end);
    var terminal := ReadTerminal(db.results, s, slice);
    lease := TaskLease(s, id, t.round, t.start, t.end, scan.targetCount, scan.config, terminal, now + LEASE_MS);
  }

  /** `Permutation::new` for the round, then the task's stretch of its order. */
  method RoundSlice(w: World, s: string, round: nat, count: nat, start: nat, end: nat) returns (slice: seq<nat>)
    requires 0 < count <= 0x1_0000_0000_0000 && start <= end <= count
    ensures slice == RoundOrder(w, s, round, count)[start..end]
  {
    var p := RoundPermutation(w, s, round, count);
    slice := GetSlice(p, Order(p), start, end);
  }

  /** The loop of `terminal_endpoint_indexes_tx`. */
  method ReadTerminal(results: map<RowKey, ResultV1>, s: string, slice: seq<nat>) returns (terminal: seq<nat>)
    ensures terminal == TerminalIndexes(results, s, slice)
  {
    terminal := [];
    for i := 0 to |slice|
      invariant terminal + TerminalIndexes(results, s, slice[i..]) == TerminalIndexes(results, s, slice)
    {
      assert slice[i..][1..] == slice[i + 1..];
      if HasRow(results, s, slice[i]) {
        terminal := terminal + [slice[i]];
      }
    }
  }

  /* ----- the store ----- */

  class Store {
    const world: World
    var scans: map<string, Scan>
    var tasks: map<string, seq<Task>>
    var log: seq<Observation>
    var results: map<RowKey, ResultV1>

    ghost function Tables(): Db
      reads this
    {
      Db(scans, tasks, log, results)
    }

    constructor (world: World)
      ensures Tables() == EMPTY_DB && Tables().Valid()
      ensures this.world == world
    {
      this.world := world;
      scans, tasks, log, results := map[], map[], [], map[];
    }

    /**
     `create_scan` for an id drawn at random and a configuration that passed validation.  It fails exactly on
     a zero task size, on target files that cannot be prepared, and on an id already taken.
     */
    method CreateScan(
        s: string, includes: seq<Entry>, excludes: seq<Entry>, allowPrivate: bool, services: seq<Service>,
        maxTargets: nat, synAttempts: nat, simulation: Simulation, taskSize: nat)
      returns (r: Result<nat, string>, ghost prepared: Option<ScanTargets>)
      requires Tables().Valid() && 1 <= synAttempts <= 3 && services != [] && DistinctServicePorts(services)
      modifies this
      ensures Tables().Valid()
      ensures r.Err? <==>
        || taskSize == 0
        || ConfigFails(includes, excludes, allowPrivate, services, maxTargets)
        || s in old(scans)
      ensures r.Err? ==> Tables() == old(Tables())
      ensures r.Ok? ==>
        && prepared.Some? && IsPrepared(prepared.value, includes, excludes, allowPrivate, services)
        && Tables() == old(Tables()).Create(s, ScanConfig(prepared.value, synAttempts, simulation), taskSize)
        && r.value == synAttempts * CeilDiv(prepared.value.EndpointCount(), taskSize)
    {
      prepared := None;
      if taskSize == 0 {
        return Err("task_size must be positive"), prepared;
      }
      var targets := FromConfig(includes, excludes, allowPrivate, services, maxTargets);
      if targets.Err? {
        return Err(targets.error), prepared;
      }
      prepared := Some(targets.value);
      r := InsertScan(s, ScanConfig(targets.value, synAttempts, simulation), taskSize);
    }

    /** Its transaction. */
    method InsertScan(s: string, config: ScanConfig, taskSize: nat) returns (r: Result<nat, string>)
      requires Tables().Valid() && config.Valid() && taskSize > 0
      modifies this
      ensures Tables().Valid()
      ensures r.Ok? <==> s !in old(scans)
      ensures r.Ok? ==> Tables() == old(Tables()).Create(s, config, taskSize)
      ensures r.Ok? ==> r.value == config.synAttempts * CeilDiv(config.targets.EndpointCount(), taskSize)
      ensures r.Err? ==> Tables() == old(Tables())
    {
      if s in scans {
        return Err("scan id already exists");
      }
      var count := config.targets.EndpointCount();
      var rows := BuildTasks(config.synAttempts, count, taskSize);
      CreateKeepsValid(Tables(), s, config, taskSize);
      ScanTasksCount(0, config.synAttempts, count, taskSize);
      scans := scans[s := Scan(Active, config, count, taskSize)];
      tasks := tasks[s := rows];
      return Ok(|rows|);
    }

    /** The two loops of `create_scan` that insert the task rows. */
    static method BuildTasks(attempts: nat, count: nat, taskSize: nat) returns (rows: seq<Task>)
      requires taskSize > 0
      ensures rows == ScanTasks(0, attempts, count, taskSize)
    {
      rows := [];
      for round := 0 to attempts
        invariant rows + ScanTasks(round, attempts, count, taskSize) == ScanTasks(0, attempts, count, taskSize)
      {
        var start := 0;
        ghost var before := rows;
        while start < count
          invariant start <= count
          invariant rows + RoundTasks(round, start, count, taskSize) == before + RoundTasks(round, 0, count, taskSize)
        {
          var end := Min(start + taskSize, count);
          rows := rows + [FreshTask(round, start, end)];
          start := end;
        }
        assert rows == before + RoundTasks(round, 0, count, taskSize);
      }
    }

    /** `lease_task`: none iff nothing is leasable, otherwise a task minimal in (round, task id). */
    method LeaseTask(worker: string, now: int) returns (lease: Option<TaskLease>)
      requires Tables().Valid()
      modifies this
      ensures Tables().Valid()
      ensures lease.None? <==> NothingLeasable(old(Tables()), now)
      ensures lease.None? ==> Tables() == old(Tables())
      ensures lease.Some? ==>
        && old(Tables()).IsNext(lease.value.scanId, lease.value.taskId, now)
        && lease.value == LeaseOf(world, old(Tables()), lease.value.scanId, lease.value.taskId, now)
        && Tables() == old(Tables()).Lease(worker, lease.value.scanId, lease.value.taskId, now)
      ensures lease.Some? ==> lease.value.expires == now + 30_000
      ensures lease.Some? ==> forall clock ::
        Tables().Leasable(lease.value.scanId, lease.value.taskId, clock) <==> clock > now + 30_000
    {
      var next := PickNext(now);
      if next.None? {
        return None;
      }
      LeaseKeepsValid(Tables(), worker, next.value.0, next.value.1, now);
      ghost var before := Tables();
      var granted := GrantLease(worker, next.value.0, next.value.1, now);
      forall clock ensures Tables().Leasable(next.value.0, next.value.1, clock) <==> clock > now + 30_000 {
        LeaseLasts(before, worker, next.value.0, next.value.1, now, clock);
      }
      return Some(granted);
    }

    /** The rest of `lease_task`: mark the selected row, then build the lease. */
    method GrantLease(worker: string, s: string, id: nat, now: int) returns (lease: TaskLease)
      requires Tables().Valid() && Tables().Leasable(s, id, now)
      modifies this`tasks
      ensures lease == LeaseOf(world, old(Tables()), s, id, now)
      ensures Tables() == old(Tables()).Lease(worker, s, id, now)
    {
      var selected := Db(scans, tasks, log, results);
      var t := tasks[s][id];
      UpdateTask(s, id, t.Leased(worker, now));
      lease := BuildLease(world, selected, s, id, now);
    }

    /** `ORDER BY t.round, t.task_id LIMIT 1`; which scan wins a tie is left open. */
    method PickNext(now: int) returns (next: Option<(string, nat)>)
      ensures next.None? <==> NothingLeasable(Tables(), now)
      ensures next.Some? ==>
        Tables().HasTask(next.value.0, next.value.1) && Tables().IsNext(next.value.0, next.value.1, now)
    {
      var db := Db(scans, tasks, log, results);
      if !exists s, id :: s in tasks && 0 <= id < |tasks[s]| && db.Leasable(s, id, now) {
        return None;
      }
      ghost var s0, id0 :| s0 in tasks && 0 <= id0 < |tasks[s0]| && db.Leasable(s0, id0, now);
      NextExists(db, s0, id0, now);
      var s, id :| s in tasks && 0 <= id < |tasks[s]| && db.IsNext(s, id, now);
      return Some((s, id));
    }

    /** `UPDATE tasks SET .. WHERE scan_id = .. AND task_id = ..`. */
    method UpdateTask(s: string, id: int, t: Task)
      requires Tables().HasTask(s, id)
      modifies this`tasks
      ensures Tables() == old(Tables()).WithTask(s, id, t)
    {
      tasks := tasks[s := tasks[s][id := t]];
    }

    method RenewTask(worker: string, s: string, id: int, now: int) returns (r: Result<(), string>)
      requires Tables().Valid()
      modifies this`tasks
      ensures Tables().Valid()
      ensures r.Ok? <==> old(Tables()).Renew(worker, s, id, now).Ok?
      ensures Tables() == if r.Ok? then old(Tables()).Renew(worker, s, id, now).value else old(Tables())
      ensures r.Ok? ==> forall clock :: Tables().Leasable(s, id, clock) <==> clock > now + 30_000
    {
      if !(s in tasks && 0 <= id < |tasks[s]| && tasks[s][id].owner == Some(worker) && tasks[s][id].status == Running) {
        return Err("task lease is no longer owned by worker");
      }
      ghost var db := Tables();
      RenewKeepsValid(db, worker, s, id, now);
      UpdateTask(s, id, tasks[s][id].Renewed(now));
      forall clock ensures Tables().Leasable(s, id, clock) <==> clock > now + 30_000 {
        RenewalLasts(db, worker, s, id, now, clock);
      }
      return Ok(());
    }

    /** `submit_observations`: all rows or, on the first endpoint outside the targets, none. */
    method SubmitObservations(worker: string, s: string, taskId: int, observations: seq<ResultV1>)
      returns (r: Result<(), string>)
      requires Tables().Valid()
      modifies this`log, this`results
      ensures Tables().Valid()
      ensures r.Ok? <==> old(Tables()).Submit(worker, s, taskId, observations).Ok?
      ensures Tables() == if r.Ok? then old(Tables()).Submit(worker, s, taskId, observations).value else old(Tables())
    {
      ghost var before := Tables();
      var newLog, newResults := log, results;
      for i := 0 to |observations|
        invariant before.Submit(worker, s, taskId, observations) ==
          Db(scans, tasks, newLog, newResults).Submit(worker, s, taskId, observations[i..])
      {
        var result := observations[i];
        assert observations[i..][0] == result && observations[i..][1..] == observations[i + 1..];
        if s !in scans {
          return Err("no such scan");
        }
        var index := scans[s].config.targets.EndpointIndex(result.ip, result.service);
        if index.None? {
          return Err("observation endpoint is outside scan targets");
        }
        var o := Observation(index.value, taskId, worker, result);
        newLog := newLog + [o];
        if result.state != NoResponse {
          var key := o.Key();
          var chosen := if key in newResults then MergeResult(newResults[key], result) else result;
          newResults := newResults[key := chosen];
        }
      }
      SubmitKeepsValid(before, worker, s, taskId, observations);
      log, results := newLog, newResults;
      return Ok(());
    }

    method CompleteTask(worker: string, s: string, id: int) returns (r: Result<(), string>)
      requires Tables().Valid()
      modifies this`tasks, this`scans
      ensures Tables().Valid()
      ensures r.Ok? <==> old(Tables()).Owns(worker, s, id)
      ensures Tables() == if r.Ok? then old(Tables()).Complete(worker, s, id).value else old(Tables())
      ensures r.Ok? ==> Unfinished(tasks[s]) == Unfinished(old(tasks[s])) - 1
    {
      if !(s in tasks && 0 <= id < |tasks[s]| && tasks[s][id].owner == Some(worker)) {
        return Err("task lease is no longer owned by worker");
      }
      CompleteKeepsValid(Tables(), worker, s, id);
      CompleteFinishesOne(Tables(), worker, s, id);
      OwnedIsRunning(Tables(), worker, s, id);
      UpdateTask(s, id, tasks[s][id].Finished());
      if forall t | t in tasks[s] :: t.status == Done {
        scans := scans[s := scans[s].Closed()];
      }
      return Ok(());
    }

    method FailTask(worker: string, s: string, id: int, error: string) returns (r: Result<(), string>)
      requires Tables().Valid()
      modifies this`tasks
      ensures Tables().Valid()
      ensures r.Ok? <==> old(Tables()).Owns(worker, s, id)
      ensures Tables() == if r.Ok? then old(Tables()).Fail(worker, s, id, error).value else old(Tables())
    {
      if !(s in tasks && 0 <= id < |tasks[s]| && tasks[s][id].owner == Some(worker)) {
        return Err("task lease is no longer owned by worker");
      }
      FailKeepsValid(Tables(), worker, s, id, error);
      UpdateTask(s, id, tasks[s][id].Returned(error));
      return Ok(());
    }
  }
}
