/**
 The worker's own loop, run against the store: lease, run, submit, complete, until nothing is
 leasable.  It terminates, and what it leaves unfinished was never its to finish.
 */
module Workers {
  import opened Words
  import Endpoints
  import opened Results
  import opened Coordinator
  import opened Distributed

  /** The tasks that still have to be done, over all scans. */
  ghost function Remaining(tasks: map<string, seq<Task>>): set<(string, int)> {
    set s, id | s in tasks && 0 <= id < |tasks[s]| && tasks[s][id].status != Done :: (s, id)
  }

  /** Every active scan asks for simulated results; a worker cannot run any other. */
  predicate ActiveSimulated(scans: map<string, Scan>) {
    forall s | s in scans && scans[s].status == Active :: scans[s].config.simulation.enabled
  }

  /** Only tasks in progress before are unfinished after, and they are untouched. */
  ghost predicate LeavesOnly(before: map<string, seq<Task>>, after: map<string, seq<Task>>) {
    && after.Keys == before.Keys
    && (forall s | s in after :: |after[s]| == |before[s]|)
    && (forall s, id | s in after && 0 <= id < |after[s]| && after[s][id].status != Done ::
        after[s][id] == before[s][id])
  }

  /** From `db` to `after` one task got done and nothing else about tasks and configurations changed. */
  ghost predicate TaskDone(db: Db, after: Db, s: string, id: int) {
    && db.HasTask(s, id) && after.HasTask(s, id)
    && after.tasks[s][id].status == Done
    && after.tasks == db.tasks[s := db.tasks[s][id := after.tasks[s][id]]]
    && SameConfigs(db, after)
  }

  ghost predicate SameConfigs(db: Db, after: Db) {
    && after.scans.Keys == db.scans.Keys
    && (forall r | r in db.scans :: after.scans[r].config == db.scans[r].config)
  }

  lemma SubmitAfterLease(w: World, db: Db, worker: string, s: string, id: int, now: int, observations: seq<ResultV1>)
    requires DbInv(w, db) && db.Leasable(s, id, now)
    requires IsRunOf(w, LeaseOf(w, db, s, id, now), LeaseSlice(w, LeaseOf(w, db, s, id, now)), observations)
    ensures var leased := db.Lease(worker, s, id, now);
      && leased.Submit(worker, s, id, observations).Ok?
      && var stored := leased.Submit(worker, s, id, observations).value;
         && DbInv(w, stored) && stored.tasks == leased.tasks && stored.scans == db.scans
         && MessageOk(w, stored, CompleteMsg(worker, s, id))
  {
    var leased := db.Lease(worker, s, id, now);
    LeaseInv(w, db, worker, s, id, now);
    LeaseOfOk(w, db, s, id, worker, now);
    RunMessageOk(w, leased, LeaseOf(w, db, s, id, now), observations);
    SubmitInv(w, leased, worker, s, id, observations);
    SubmitKeepsValid(leased, worker, s, id, observations);
  }

  lemma CompleteAfterSubmit(db: Db, stored: Db, worker: string, s: string, id: int, now: int)
    requires db.HasTask(s, id)
    requires stored.tasks == db.Lease(worker, s, id, now).tasks && stored.scans == db.scans
    ensures stored.Complete(worker, s, id).Ok?
    ensures TaskDone(db, stored.Complete(worker, s, id).value, s, id)
  {
    CompleteEffect(stored, worker, s, id);
    var after := stored.Complete(worker, s, id).value;
    assert after.tasks[s] == db.tasks[s][id := after.tasks[s][id]];
  }

  lemma CompleteEffect(db: Db, worker: string, s: string, id: int)
    requires db.Owns(worker, s, id)
    ensures db.Complete(worker, s, id).Ok?
    ensures var after := db.Complete(worker, s, id).value;
      && after.tasks == db.tasks[s := db.tasks[s][id := db.tasks[s][id].Finished()]]
      && SameConfigs(db, after)
  {
  }

  lemma RemainingShrinks(before: map<string, seq<Task>>, s: string, id: int, t: Task)
    requires s in before && 0 <= id < |before[s]| && before[s][id].status != Done && t.status == Done
    ensures Remaining(before[s := before[s][id := t]]) < Remaining(before)
  {
    var after := before[s := before[s][id := t]];
    assert (s, id) in Remaining(before) && (s, id) !in Remaining(after);
    forall pair | pair in Remaining(after) ensures pair in Remaining(before) {
      assert pair.0 in before && 0 <= pair.1 < |before[pair.0]|;
    }
  }

  lemma LeavesStep(start: map<string, seq<Task>>, before: map<string, seq<Task>>, s: string, id: int, t: Task)
    requires LeavesOnly(start, before) && s in before && 0 <= id < |before[s]| && t.status == Done
    ensures LeavesOnly(start, before[s := before[s][id := t]])
  {
  }

  /* ----- one turn of the loop ----- */

  /** The run succeeds: its observations go in and the task is completed. */
  ghost predicate Finishes(
      w: World, db: Db, after: Db, worker: string, s: string, id: int, now: int, observations: seq<ResultV1>)
    requires TaskKnown(db, s, id)
  {
    var leased, lease := db.Lease(worker, s, id, now), LeaseOf(w, db, s, id, now);
    && IsRunOf(w, lease, LeaseSlice(w, lease), observations)
    && leased.Submit(worker, s, id, observations).Ok?
    && leased.Submit(worker, s, id, observations).value.Complete(worker, s, id) == Ok(after)
  }

  /** The run fails: the task goes back to pending. */
  ghost predicate GivesBack(db: Db, after: Db, worker: string, s: string, id: int, now: int, error: string)
    requires TaskKnown(db, s, id)
  {
    db.Lease(worker, s, id, now).Fail(worker, s, id, error) == Ok(after)
  }

  /** What a turn does with the task it leased. */
  ghost predicate TurnAt(w: World, db: Db, after: Db, worker: string, s: string, id: int, now: int) {
    && db.IsNext(s, id, now)
    && if db.scans[s].config.simulation.enabled
       then exists observations :: Finishes(w, db, after, worker, s, id, now, observations)
       else exists error :: GivesBack(db, after, worker, s, id, now, error)
  }

  ghost predicate Turn(w: World, db: Db, after: Db, worker: string, now: int) {
    exists s, id :: TurnAt(w, db, after, worker, s, id, now)
  }

  /** One round of the worker's loop, for whatever scans there are. */
  method WorkOnce(store: Store, worker: string, now: int, stamp: nat -> string) returns (worked: bool)
    requires DbInv(store.world, store.Tables())
    modifies store
    ensures DbInv(store.world, store.Tables())
    ensures worked <==> !NothingLeasable(old(store.Tables()), now)
    ensures !worked ==> store.Tables() == old(store.Tables())
    ensures worked ==> Turn(store.world, old(store.Tables()), store.Tables(), worker, now)
  {
    ghost var w, before := store.world, store.Tables();
    var next := store.LeaseTask(worker, now);
    if next.None? {
      return false;
    }
    var lease := next.value;
    SliceInScan(before, lease.scanId, lease.taskId);
    assert ScanValid(before.scans[lease.scanId], before.tasks[lease.scanId]);
    var run := RunTask(store.world, lease, stamp);
    match run {
      case Ok(done) => Deliver(store, worker, lease, now, done.1, before);
      case Err(error) => Return(store, worker, lease, now, error, before);
    }
    assert TurnAt(w, before, store.Tables(), worker, lease.scanId, lease.taskId, now);
    return true;
  }

  /** Submit, then complete. */
  method Deliver(
      store: Store, worker: string, lease: TaskLease, now: int, observations: seq<ResultV1>, ghost before: Db)
    requires DbInv(store.world, before) && before.Leasable(lease.scanId, lease.taskId, now)
    requires lease == LeaseOf(store.world, before, lease.scanId, lease.taskId, now)
    requires IsRunOf(store.world, lease, LeaseSlice(store.world, lease), observations)
    requires store.Tables() == before.Lease(worker, lease.scanId, lease.taskId, now) && store.Tables().Valid()
    modifies store
    ensures DbInv(store.world, store.Tables())
    ensures Finishes(store.world, before, store.Tables(), worker, lease.scanId, lease.taskId, now, observations)
  {
    var s, id := lease.scanId, lease.taskId;
    SubmitAfterLease(store.world, before, worker, s, id, now, observations);
    var submitted := store.SubmitObservations(worker, s, id, observations);
    CompleteAfterSubmit(before, store.Tables(), worker, s, id, now);
    CompleteInv(store.world, store.Tables(), worker, s, id);
    var completed := store.CompleteTask(worker, s, id);
  }

  /** Report the failure. */
  method Return(store: Store, worker: string, lease: TaskLease, now: int, error: string, ghost before: Db)
    requires DbInv(store.world, before) && before.Leasable(lease.scanId, lease.taskId, now)
    requires store.Tables() == before.Lease(worker, lease.scanId, lease.taskId, now) && store.Tables().Valid()
    modifies store
    ensures DbInv(store.world, store.Tables())
    ensures GivesBack(before, store.Tables(), worker, lease.scanId, lease.taskId, now, error)
  {
    GiveBackInv(store.world, before, worker, lease.scanId, lease.taskId, now, error);
    var failed := store.FailTask(worker, lease.scanId, lease.taskId, error);
  }

  lemma GiveBackInv(w: World, db: Db, worker: string, s: string, id: int, now: int, error: string)
    requires DbInv(w, db) && db.Leasable(s, id, now)
    ensures var failed := db.Lease(worker, s, id, now).Fail(worker, s, id, error);
      failed.Ok? && DbInv(w, failed.value)
  {
    LeaseInv(w, db, worker, s, id, now);
    LeasedIsOwned(db, worker, s, id, now);
    FailOwnedInv(w, db.Lease(worker, s, id, now), worker, s, id, error);
  }

  lemma LeasedIsOwned(db: Db, worker: string, s: string, id: int, now: int)
    requires db.HasTask(s, id)
    ensures db.Lease(worker, s, id, now).Owns(worker, s, id)
  {
  }

  lemma FailOwnedInv(w: World, db: Db, worker: string, s: string, id: int, error: string)
    requires DbInv(w, db) && db.Owns(worker, s, id)
    ensures db.Fail(worker, s, id, error).Ok? && DbInv(w, db.Fail(worker, s, id, error).value)
  {
    FailInv(w, db, worker, s, id, error);
  }

  /** What a turn leaves of the task rows: one finished, or one pending again. */
  ghost predicate TaskReturned(db: Db, after: Db, s: string, id: int) {
    && db.HasTask(s, id) && after.HasTask(s, id)
    && after.tasks[s][id].status == Pending && after.tasks[s][id].Slice() == db.tasks[s][id].Slice()
    && after.tasks == db.tasks[s := db.tasks[s][id := after.tasks[s][id]]]
    && after.scans == db.scans && after.log == db.log && after.results == db.results
  }

  lemma FinishEffect(
      w: World, db: Db, after: Db, worker: string, s: string, id: int, now: int, observations: seq<ResultV1>)
    requires DbInv(w, db) && db.Leasable(s, id, now) && Finishes(w, db, after, worker, s, id, now, observations)
    ensures DbInv(w, after) && TaskDone(db, after, s, id)
  {
    SubmitAfterLease(w, db, worker, s, id, now, observations);
    var stored := db.Lease(worker, s, id, now).Submit(worker, s, id, observations).value;
    CompleteAfterSubmit(db, stored, worker, s, id, now);
    CompleteInv(w, stored, worker, s, id);
  }

  lemma GiveBackEffect(w: World, db: Db, after: Db, worker: string, s: string, id: int, now: int, error: string)
    requires DbInv(w, db) && db.Leasable(s, id, now) && GivesBack(db, after, worker, s, id, now, error)
    ensures DbInv(w, after) && TaskReturned(db, after, s, id)
  {
    GiveBackInv(w, db, worker, s, id, now, error);
    ReturnedRows(db, worker, s, id, now, error);
  }

  lemma ReturnedRows(db: Db, worker: string, s: string, id: int, now: int, error: string)
    requires db.HasTask(s, id) && db.Lease(worker, s, id, now).Fail(worker, s, id, error).Ok?
    ensures TaskReturned(db, db.Lease(worker, s, id, now).Fail(worker, s, id, error).value, s, id)
  {
    var after := db.Lease(worker, s, id, now).Fail(worker, s, id, error).value;
    assert after.tasks[s] == db.tasks[s][id := after.tasks[s][id]];
  }

  /** A turn moves one task, which is done exactly if its scan is simulated. */
  ghost predicate Moved(db: Db, after: Db, s: string, id: int) {
    && s in db.scans
    && if db.scans[s].config.simulation.enabled then TaskDone(db, after, s, id) else TaskReturned(db, after, s, id)
  }

  /** The loop keeps the protocol invariant and moves the task it leased. */
  lemma TurnEffect(w: World, db: Db, after: Db, worker: string, now: int) returns (s: string, id: int)
    requires DbInv(w, db) && Turn(w, db, after, worker, now)
    ensures DbInv(w, after) && db.IsNext(s, id, now) && Moved(db, after, s, id)
  {
    s, id :| TurnAt(w, db, after, worker, s, id, now);
    if db.scans[s].config.simulation.enabled {
      var observations :| Finishes(w, db, after, worker, s, id, now, observations);
      FinishEffect(w, db, after, worker, s, id, now, observations);
    } else {
      var error :| GivesBack(db, after, worker, s, id, now, error);
      GiveBackEffect(w, db, after, worker, s, id, now, error);
    }
  }

  /* ----- the loop ----- */

  /**
   `run_worker` with `exit_when_idle`, nobody else interfering; `clock` gives the time seen at each
   lease request.  It stops when nothing is leasable, and every task it found pending is done by then.
   With an active scan that is not simulated it would not stop: see `IdleIff`.
   */
  method RunWorker(store: Store, worker: string, clock: nat -> int, stamp: (nat, nat) -> string) returns (rounds: nat)
    requires DbInv(store.world, store.Tables()) && ActiveSimulated(store.scans)
    modifies store
    ensures DbInv(store.world, store.Tables())
    ensures NothingLeasable(store.Tables(), clock(rounds))
    ensures LeavesOnly(old(store.tasks), store.tasks)
  {
    rounds := 0;
    while true
      invariant DbInv(store.world, store.Tables()) && ActiveSimulated(store.scans)
      invariant LeavesOnly(old(store.tasks), store.tasks)
      decreases Remaining(store.tasks)
    {
      ghost var before := store.Tables();
      var k := rounds;
      var worked := WorkOnce(store, worker, clock(k), (j: nat) => stamp(k, j));
      if !worked {
        return;
      }
      SimulatedTurn(store.world, old(store.tasks), before, store.Tables(), worker, clock(k));
      rounds := rounds + 1;
    }
  }

  /** A turn of a loop that meets only simulated scans. */
  lemma SimulatedTurn(w: World, start: map<string, seq<Task>>, db: Db, after: Db, worker: string, now: int)
    requires DbInv(w, db) && ActiveSimulated(db.scans) && Turn(w, db, after, worker, now)
    ensures DbInv(w, after) && ActiveSimulated(after.scans)
    ensures Remaining(after.tasks) < Remaining(db.tasks)
    ensures LeavesOnly(start, db.tasks) ==> LeavesOnly(start, after.tasks)
  {
    var s, id := TurnEffect(w, db, after, worker, now);
    SimulatedMove(start, db, after, s, id, now);
  }

  lemma SimulatedMove(start: map<string, seq<Task>>, db: Db, after: Db, s: string, id: int, now: int)
    requires db.Valid() && after.Valid() && ActiveSimulated(db.scans)
    requires db.Leasable(s, id, now) && Moved(db, after, s, id)
    ensures ActiveSimulated(after.scans)
    ensures Remaining(after.tasks) < Remaining(db.tasks)
    ensures LeavesOnly(start, db.tasks) ==> LeavesOnly(start, after.tasks)
  {
    DoneShrinks(start, db, after, s, id);
    StaysSimulated(db, after, s, id);
  }

  lemma DoneShrinks(start: map<string, seq<Task>>, db: Db, after: Db, s: string, id: int)
    requires TaskDone(db, after, s, id) && db.tasks[s][id].status != Done
    ensures Remaining(after.tasks) < Remaining(db.tasks)
    ensures LeavesOnly(start, db.tasks) ==> LeavesOnly(start, after.tasks)
  {
    var t := after.tasks[s][id];
    RemainingShrinks(db.tasks, s, id, t);
    if LeavesOnly(start, db.tasks) { LeavesStep(start, db.tasks, s, id, t); }
  }

  /** A turn activates no scan: a completed one still has all its tasks done. */
  lemma StaysSimulated(db: Db, after: Db, s: string, id: int)
    requires db.Valid() && after.Valid() && TaskDone(db, after, s, id)
    ensures ActiveSimulated(db.scans) ==> ActiveSimulated(after.scans)
  {
    forall r | r in after.scans && after.scans[r].status == Active ensures db.scans[r].status == Active {
      StaysActive(db, after, s, id, r);
    }
  }

  lemma StaysActive(db: Db, after: Db, s: string, id: int, r: string)
    requires db.Valid() && after.Valid() && TaskDone(db, after, s, id)
    requires r in after.scans && after.scans[r].status == Active
    ensures r in db.scans && db.scans[r].status == Active
  {
    var k := UndoneTask(after, r);
    UndoneBefore(db, after, s, id, r, k);
    UndoneIsActive(db, r, k);
  }

  /** An active scan has a task that is not done. */
  lemma UndoneTask(db: Db, s: string) returns (id: int)
    requires db.Valid() && s in db.scans && db.scans[s].status == Active
    ensures db.HasTask(s, id) && db.tasks[s][id].status != Done
  {
    assert ScanValid(db.scans[s], db.tasks[s]);
    var t :| t in db.tasks[s] && t.status != Done;
    id :| 0 <= id < |db.tasks[s]| && db.tasks[s][id] == t;
  }

  lemma UndoneBefore(db: Db, after: Db, s: string, id: int, r: string, k: int)
    requires TaskDone(db, after, s, id) && after.HasTask(r, k) && after.tasks[r][k].status != Done
    ensures db.HasTask(r, k) && db.tasks[r][k] == after.tasks[r][k]
  {
  }

  lemma UndoneIsActive(db: Db, s: string, id: int)
    requires db.Valid() && db.HasTask(s, id) && db.tasks[s][id].status != Done
    ensures s in db.scans && db.scans[s].status == Active
  {
    assert ScanValid(db.scans[s], db.tasks[s]);
    assert db.tasks[s][id] in db.tasks[s];
  }

  /** With no lease outstanding at the start, the loop completes every scan, with exactly the sequential rows. */
  lemma IdleMeansFinished(w: World, start: map<string, seq<Task>>, db: Db, now: int, s: string)
    requires DbInv(w, db) && NothingLeasable(db, now) && LeavesOnly(start, db.tasks)
    requires forall r, id | r in start && 0 <= id < |start[r]| :: start[r][id].status != Running
    requires s in db.scans
    ensures db.scans[s].status == Completed
    ensures AnswersOf(db.results, s) == SequentialScan(w, s, db.scans[s].config, db.scans[s].targetCount)
  {
    assert ScanValid(db.scans[s], db.tasks[s]);
    forall t | t in db.tasks[s] ensures t.status == Done {
      var id :| 0 <= id < |db.tasks[s]| && db.tasks[s][id] == t;
      LeasableIff(db, s, id, now);
      assert !db.Leasable(s, id, now);
    }
    FinishedScan(w, db, s);
  }

  /* ----- scans that are not simulated ----- */

  /** A pending task of an active scan no worker can run. */
  ghost predicate Stuck(db: Db, s: string, id: int) {
    && s in db.scans && db.scans[s].status == Active && !db.scans[s].config.simulation.enabled
    && db.HasTask(s, id) && db.tasks[s][id].status == Pending
  }

  /** It is always leasable, so the worker always gets work. */
  lemma StuckIsLeasable(db: Db, s: string, id: int, now: int)
    requires Stuck(db, s, id)
    ensures db.Leasable(s, id, now) && !NothingLeasable(db, now)
  {
    assert db.Leasable(s, id, now);
  }

  /** And it stays so: through every turn the task is pending again, or still. */
  lemma StuckStays(w: World, db: Db, after: Db, worker: string, now: int, s: string, id: int)
    requires DbInv(w, db) && Turn(w, db, after, worker, now) && Stuck(db, s, id)
    ensures DbInv(w, after) && Stuck(after, s, id) && after.tasks[s][id].Slice() == db.tasks[s][id].Slice()
  {
    var r, k := TurnEffect(w, db, after, worker, now);
    StuckBeside(db, after, s, id, r, k);
  }

  lemma StuckBeside(db: Db, after: Db, s: string, id: int, r: string, k: int)
    requires Stuck(db, s, id) && Moved(db, after, r, k) && after.Valid()
    ensures Stuck(after, s, id) && after.tasks[s][id].Slice() == db.tasks[s][id].Slice()
  {
    if db.scans[r].config.simulation.enabled {
      StuckBesideDone(db, after, s, id, r, k);
    } else {
      StuckBesideReturned(db, after, s, id, r, k);
    }
  }

  lemma StuckBesideDone(db: Db, after: Db, s: string, id: int, r: string, k: int)
    requires Stuck(db, s, id) && TaskDone(db, after, r, k) && after.Valid()
    requires r in db.scans && db.scans[r].config.simulation.enabled
    ensures Stuck(after, s, id) && after.tasks[s][id].Slice() == db.tasks[s][id].Slice()
  {
    assert after.tasks[s][id] == db.tasks[s][id];
    UndoneIsActive(after, s, id);
  }

  lemma StuckBesideReturned(db: Db, after: Db, s: string, id: int, r: string, k: int)
    requires Stuck(db, s, id) && TaskReturned(db, after, r, k)
    ensures Stuck(after, s, id) && after.tasks[s][id].Slice() == db.tasks[s][id].Slice()
  {
    if r == s && k == id {
    } else {
      assert after.tasks[s][id] == db.tasks[s][id];
    }
  }

  /** States linked by steps, the first of which is numbered `from`. */
  ghost predicate Chain<T(!new)>(steps: iset<(nat, T, T)>, from: nat, states: seq<T>) {
    states != [] && forall k: nat | k + 1 < |states| :: Linked(steps, from, states, k)
  }

  ghost predicate Linked<T(!new)>(steps: iset<(nat, T, T)>, from: nat, states: seq<T>, k: nat)
    requires k + 1 < |states|
  {
    (from + k, states[k], states[k + 1]) in steps
  }

  lemma ChainCons<T(!new)>(steps: iset<(nat, T, T)>, from: nat, state: T, rest: seq<T>)
    requires Chain(steps, from + 1, rest) && (from, state, rest[0]) in steps
    ensures Chain(steps, from, [state] + rest)
  {
    var states := [state] + rest;
    forall k: nat | k + 1 < |states| ensures Linked(steps, from, states, k) {
      if k > 0 { assert Linked(steps, from + 1, rest, k - 1); }
    }
  }

  /** Steps stay inside the set, and so does a chain that starts in it. */
  ghost predicate Kept<T(!new)>(steps: iset<(nat, T, T)>, good: iset<T>) {
    forall step | step in steps :: step.1 in good ==> step.2 in good
  }

  lemma {:induction false} ChainStays<T(!new)>(
      steps: iset<(nat, T, T)>, from: nat, states: seq<T>, good: iset<T>, n: nat)
    requires Chain(steps, from, states) && Kept(steps, good) && states[0] in good && n < |states|
    ensures states[n] in good
  {
    if n > 0 {
      ChainStays(steps, from, states, good, n - 1);
      assert Linked(steps, from, states, n - 1);
    }
  }

  /** The turns of the worker's loop, each at its number. */
  ghost function Turns(w: World, worker: string, clock: nat -> int): iset<(nat, Db, Db)> {
    iset step: (nat, Db, Db) | Turn(w, step.1, step.2, worker, clock(step.0))
  }

  /** The tables before each turn of a loop whose first turn reads the clock at `from`, and at its end. */
  ghost predicate Loop(w: World, worker: string, clock: nat -> int, from: nat, dbs: seq<Db>) {
    Chain(Turns(w, worker, clock), from, dbs)
  }

  /** The loop can come to a lease request that is answered with nothing. */
  ghost predicate CanGoIdle(w: World, db: Db, worker: string, clock: nat -> int, from: nat) {
    exists dbs: seq<Db> :: IdlesAfter(w, db, worker, clock, from, dbs)
  }

  ghost predicate IdlesAfter(w: World, db: Db, worker: string, clock: nat -> int, from: nat, dbs: seq<Db>) {
    Loop(w, worker, clock, from, dbs) && dbs[0] == db && NothingLeasable(dbs[|dbs| - 1], clock(from + |dbs| - 1))
  }

  predicate NoneRunning(db: Db) {
    forall s, id | s in db.tasks && 0 <= id < |db.tasks[s]| :: db.tasks[s][id].status != Running
  }

  ghost function StuckTables(w: World, s: string, id: int): iset<Db> {
    iset db | DbInv(w, db) && Stuck(db, s, id)
  }

  lemma StuckTablesKept(w: World, worker: string, clock: nat -> int, s: string, id: int)
    ensures Kept(Turns(w, worker, clock), StuckTables(w, s, id))
  {
    forall step | step in Turns(w, worker, clock) && step.1 in StuckTables(w, s, id)
      ensures step.2 in StuckTables(w, s, id)
    {
      StuckStays(w, step.1, step.2, worker, clock(step.0), s, id);
    }
  }

  /** A task stuck at the start is stuck in every state of the loop, which is never idle. */
  lemma StuckThroughout(
      w: World, worker: string, clock: nat -> int, from: nat, dbs: seq<Db>, s: string, id: int, n: nat, now: int)
    requires Loop(w, worker, clock, from, dbs) && DbInv(w, dbs[0]) && Stuck(dbs[0], s, id) && n < |dbs|
    ensures Stuck(dbs[n], s, id) && !NothingLeasable(dbs[n], now)
  {
    StuckTablesKept(w, worker, clock, s, id);
    ChainStays(Turns(w, worker, clock), from, dbs, StuckTables(w, s, id), n);
    StuckIsLeasable(dbs[n], s, id, now);
  }

  lemma TaskNotFailed(db: Db, s: string, id: int)
    requires db.Valid() && db.HasTask(s, id)
    ensures db.tasks[s][id].status != Failed
  {
    assert ScanValid(db.scans[s], db.tasks[s]);
    assert db.tasks[s][id] in db.tasks[s];
  }

  lemma StuckExists(db: Db) returns (s: string, id: int)
    requires db.Valid() && NoneRunning(db) && !ActiveSimulated(db.scans)
    ensures Stuck(db, s, id)
  {
    s :| s in db.scans && db.scans[s].status == Active && !db.scans[s].config.simulation.enabled;
    id := UndoneTask(db, s);
    TaskNotFailed(db, s, id);
  }

  /** An idle end can be reached from simulated scans: every turn finishes a task. */
  lemma {:induction false} SimulatedGoesIdle(w: World, db: Db, worker: string, clock: nat -> int, from: nat)
    returns (dbs: seq<Db>)
    requires DbInv(w, db) && ActiveSimulated(db.scans)
    ensures IdlesAfter(w, db, worker, clock, from, dbs)
    decreases Remaining(db.tasks)
  {
    if NothingLeasable(db, clock(from)) {
      dbs := [db];
      assert IdlesAfter(w, db, worker, clock, from, dbs);
    } else {
      var after := SimulatedTurnExists(w, db, worker, clock(from));
      var rest := SimulatedGoesIdle(w, after, worker, clock, from + 1);
      dbs := [db] + rest;
      IdlesLater(w, db, after, worker, clock, from, rest);
    }
  }

  lemma IdlesLater(w: World, db: Db, after: Db, worker: string, clock: nat -> int, from: nat, rest: seq<Db>)
    requires IdlesAfter(w, after, worker, clock, from + 1, rest) && Turn(w, db, after, worker, clock(from))
    ensures IdlesAfter(w, db, worker, clock, from, [db] + rest)
  {
    var dbs := [db] + rest;
    ChainCons(Turns(w, worker, clock), from, db, rest);
    assert dbs[|dbs| - 1] == rest[|rest| - 1];
    assert from + |dbs| - 1 == (from + 1) + |rest| - 1;
  }

  lemma SimulatedTurnExists(w: World, db: Db, worker: string, now: int) returns (after: Db)
    requires DbInv(w, db) && ActiveSimulated(db.scans) && !NothingLeasable(db, now)
    ensures Turn(w, db, after, worker, now) && DbInv(w, after) && ActiveSimulated(after.scans)
    ensures Remaining(after.tasks) < Remaining(db.tasks)
  {
    after := TurnExists(w, db, worker, now);
    SimulatedTurn(w, db.tasks, db, after, worker, now);
  }

  /** Whenever something is leasable, a turn can be taken. */
  lemma TurnExists(w: World, db: Db, worker: string, now: int) returns (after: Db)
    requires DbInv(w, db) && !NothingLeasable(db, now)
    ensures Turn(w, db, after, worker, now)
  {
    var r, k :| db.Leasable(r, k, now);
    NextExists(db, r, k, now);
    var s, id :| s in db.tasks && 0 <= id < |db.tasks[s]| && db.IsNext(s, id, now);
    after := TurnAtExists(w, db, worker, s, id, now);
  }

  lemma TurnAtExists(w: World, db: Db, worker: string, s: string, id: int, now: int) returns (after: Db)
    requires DbInv(w, db) && db.IsNext(s, id, now)
    ensures TurnAt(w, db, after, worker, s, id, now)
  {
    if db.scans[s].config.simulation.enabled {
      after := FinishExists(w, db, worker, s, id, now);
    } else {
      after := GiveBackExists(db, worker, s, id, now, "");
    }
  }

  lemma GiveBackExists(db: Db, worker: string, s: string, id: int, now: int, error: string) returns (after: Db)
    requires db.HasTask(s, id) && s in db.scans
    ensures GivesBack(db, after, worker, s, id, now, error)
  {
    after := db.Lease(worker, s, id, now).Fail(worker, s, id, error).value;
  }

  lemma FinishExists(w: World, db: Db, worker: string, s: string, id: int, now: int) returns (after: Db)
    requires DbInv(w, db) && db.Leasable(s, id, now)
    ensures exists observations :: Finishes(w, db, after, worker, s, id, now, observations)
  {
    var lease := LeaseOf(w, db, s, id, now);
    LeaseSliceInScan(w, db, s, id, now);
    var observations := RunExists(w, lease, LeaseSlice(w, lease));
    SubmitAfterLease(w, db, worker, s, id, now, observations);
    var stored := db.Lease(worker, s, id, now).Submit(worker, s, id, observations).value;
    CompleteAfterSubmit(db, stored, worker, s, id, now);
    after := stored.Complete(worker, s, id).value;
    assert Finishes(w, db, after, worker, s, id, now, observations);
  }

  lemma LeaseSliceInScan(w: World, db: Db, s: string, id: int, now: int)
    requires db.Valid() && TaskKnown(db, s, id)
    ensures var lease := LeaseOf(w, db, s, id, now);
      forall index | index in LeaseSlice(w, lease) :: index < lease.config.targets.EndpointCount()
  {
    SliceInScan(db, s, id);
    assert ScanValid(db.scans[s], db.tasks[s]);
    RoundOrderIsOrder(w, s, db.tasks[s][id].round, db.scans[s].targetCount);
  }

  lemma {:induction false} RunExists(w: World, lease: TaskLease, slice: seq<nat>) returns (observations: seq<ResultV1>)
    requires forall index | index in slice :: index < lease.config.targets.EndpointCount()
    ensures IsRunOf(w, lease, slice, observations)
    decreases |slice|
  {
    if slice == [] {
      observations := [];
    } else {
      assert slice[0] in slice && forall index | index in slice[1..] :: index in slice;
      var rest := RunExists(w, lease, slice[1..]);
      if slice[0] in lease.terminal {
        observations := rest;
      } else {
        Endpoints.IndexOfEndpointAt(lease.config.targets, slice[0]);
        var e := lease.config.targets.EndpointAt(slice[0]).value;
        observations := [SimulatedResult(w, lease.scanId, lease.config.simulation, lease.round + 1, e, "")] + rest;
        assert observations[1..] == rest;
      }
    }
  }

  /**
   Started with no task running, whatever the clock shows, the loop can go idle iff every active scan is
   simulated.  One that is not keeps it leasing and failing for ever.
   */
  lemma IdleIff(w: World, db: Db, worker: string, clock: nat -> int)
    requires DbInv(w, db) && NoneRunning(db)
    ensures CanGoIdle(w, db, worker, clock, 0) <==> ActiveSimulated(db.scans)
  {
    if ActiveSimulated(db.scans) {
      var dbs := SimulatedGoesIdle(w, db, worker, clock, 0);
      assert IdlesAfter(w, db, worker, clock, 0, dbs);
    } else {
      var s, id := StuckExists(db);
      forall dbs: seq<Db> ensures !IdlesAfter(w, db, worker, clock, 0, dbs) {
        if Loop(w, worker, clock, 0, dbs) && dbs[0] == db {
          StuckThroughout(w, worker, clock, 0, dbs, s, id, |dbs| - 1, clock(|dbs| - 1));
        }
      }
    }
  }

  /* ----- starvation ----- */

  /** Later in the order in which tasks are leased, of whatever scan. */
  predicate Later(a: Task, k: int, b: Task, id: int) {
    a.round > b.round || (a.round == b.round && k > id)
  }

  /** While a task no worker can run is pending, no later task of any scan is the next one. */
  lemma StuckIsFirst(db: Db, s: string, id: int, now: int, r: string, k: int)
    requires Stuck(db, s, id) && db.HasTask(r, k) && Later(db.tasks[r][k], k, db.tasks[s][id], id)
    ensures !db.IsNext(r, k, now)
  {
    StuckIsLeasable(db, s, id, now);
  }

  ghost function StarvedTables(
      w: World, s: string, id: int, slice: (nat, nat, nat), r: string, k: int, t: Task): iset<Db> {
    iset db | DbInv(w, db) && Stuck(db, s, id) && db.tasks[s][id].Slice() == slice && db.HasTask(r, k)
      && db.tasks[r][k] == t
  }

  lemma StarvedTablesKept(
      w: World, worker: string, clock: nat -> int, s: string, id: int, slice: (nat, nat, nat), r: string, k: int,
      t: Task)
    requires t.round > slice.0 || (t.round == slice.0 && k > id)
    ensures Kept(Turns(w, worker, clock), StarvedTables(w, s, id, slice, r, k, t))
  {
    var good := StarvedTables(w, s, id, slice, r, k, t);
    forall step | step in Turns(w, worker, clock) && step.1 in good ensures step.2 in good {
      StuckStays(w, step.1, step.2, worker, clock(step.0), s, id);
      LaterUntouched(w, step.1, step.2, worker, clock(step.0), s, id, r, k);
    }
  }

  /** So it starves them: in every state of the loop they are as they were. */
  lemma StuckStarves(
      w: World, worker: string, clock: nat -> int, from: nat, dbs: seq<Db>, s: string, id: int, r: string, k: int,
      n: nat)
    requires Loop(w, worker, clock, from, dbs) && DbInv(w, dbs[0]) && Stuck(dbs[0], s, id) && n < |dbs|
    requires dbs[0].HasTask(r, k) && Later(dbs[0].tasks[r][k], k, dbs[0].tasks[s][id], id)
    ensures dbs[n].HasTask(r, k) && dbs[n].tasks[r][k] == dbs[0].tasks[r][k]
  {
    var slice, t := dbs[0].tasks[s][id].Slice(), dbs[0].tasks[r][k];
    StarvedTablesKept(w, worker, clock, s, id, slice, r, k, t);
    ChainStays(Turns(w, worker, clock), from, dbs, StarvedTables(w, s, id, slice, r, k, t), n);
  }

  lemma LaterUntouched(
      w: World, db: Db, after: Db, worker: string, now: int, s: string, id: int, r: string, k: int)
    requires DbInv(w, db) && Turn(w, db, after, worker, now) && Stuck(db, s, id)
    requires db.HasTask(r, k) && Later(db.tasks[r][k], k, db.tasks[s][id], id)
    ensures after.HasTask(r, k) && after.tasks[r][k] == db.tasks[r][k]
  {
    var p, q := TurnEffect(w, db, after, worker, now);
    MovedElsewhere(db, after, s, id, p, q, r, k, now);
  }

  lemma MovedElsewhere(db: Db, after: Db, s: string, id: int, p: string, q: int, r: string, k: int, now: int)
    requires Stuck(db, s, id) && db.IsNext(p, q, now) && Moved(db, after, p, q)
    requires db.HasTask(r, k) && Later(db.tasks[r][k], k, db.tasks[s][id], id)
    ensures after.HasTask(r, k) && after.tasks[r][k] == db.tasks[r][k]
  {
    StuckIsFirst(db, s, id, now, r, k);
    assert p != r || q != k;
  }
}
